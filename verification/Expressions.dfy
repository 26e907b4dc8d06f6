/** SQL expressions and their evaluation with three-valued logic
    (minidb/sql/ast.py, minidb/engine/expressions.py).  Names are already in lower
    case.  A raised exception of any class is `Fail`. */
module Expressions {
  import opened Basics

  type Name = string

  datatype Value = Null | Bool(b: bool) | Int(n: int) | Str(s: string)
  datatype UnOp = Neg | Not | IsNull | IsNotNull
  datatype BinOp = And | Or | Between | Like | NotLike | Eq | Ne | Lt | Le | Gt | Ge | Add | Sub | Mul | Div

  /** `Query(id)` stands for a subquery form whose SELECT is not looked into. */
  datatype Expr =
    | Lit(value: Value)
    | Col(name: Name, table: Option<Name>)
    | Un(uop: UnOp, operand: Expr)
    | Bin(op: BinOp, left: Expr, right: Expr)
    | Func(fname: Name, args: seq<Expr>, distinct: bool, star: bool)
    | Query(id: nat)

  datatype Outcome<+T> = Done(value: T) | Fail

  type Row = seq<Value>
  datatype Source = Source(alias: Name, columns: seq<Name>)

  /** What Python's libraries and the subquery runner contribute. */
  datatype World = World(
    text: Value -> string,
    upper: string -> string,
    lower: string -> string,
    like: (string, string) -> bool,
    number: string -> Option<int>,
    fold: string -> string,
    quotient: (int, int) -> Value,
    answer: (nat, seq<Source>, seq<Row>) -> Outcome<Value>)

  // ---- Python's view of a value ----

  predicate Truthy(v: Value) {
    match v
    case Null => false
    case Bool(b) => b
    case Int(n) => n != 0
    case Str(s) => s != ""
  }

  function Num(v: Value): Option<int> {
    match v
    case Bool(b) => Some(if b then 1 else 0)
    case Int(n) => Some(n)
    case _ => None
  }

  predicate PyEq(a: Value, b: Value) {
    if Num(a).Some? && Num(b).Some? then Num(a) == Num(b) else a == b
  }

  predicate Before(a: string, b: string) {
    b != "" && (a == "" || a[0] < b[0] || (a[0] == b[0] && Before(a[1..], b[1..])))
  }

  /** `a < b`; comparing a number with a string raises. */
  function Less(a: Value, b: Value): Outcome<bool> {
    if Num(a).Some? && Num(b).Some? then Done(Num(a).value < Num(b).value)
    else if a.Str? && b.Str? then Done(Before(a.s, b.s))
    else Fail
  }

  function Repeat(s: string, n: int): string
    decreases n
  {
    if n <= 0 then "" else s + Repeat(s, n - 1)
  }

  // ---- operators ----

  function Neither(v: Value): Value {
    if v.Null? then Null else Bool(!Truthy(v))
  }

  function Both(a: Value, b: Value): Value {
    if a == Bool(false) || b == Bool(false) then Bool(false)
    else if a.Null? || b.Null? then Null
    else Bool(Truthy(a) && Truthy(b))
  }

  function Either(a: Value, b: Value): Value {
    if a == Bool(true) || b == Bool(true) then Bool(true)
    else if a.Null? || b.Null? then Null
    else Bool(Truthy(a) || Truthy(b))
  }

  function ApplyUn(op: UnOp, v: Value): Outcome<Value> {
    match op
    case Neg => if v.Null? then Done(Null) else if Num(v).Some? then Done(Int(-Num(v).value)) else Fail
    case Not => Done(Neither(v))
    case IsNull => Done(Bool(v.Null?))
    case IsNotNull => Done(Bool(!v.Null?))
  }

  function AsValue(o: Outcome<bool>, positive: bool): Outcome<Value> {
    match o case Done(b) => Done(Bool(b == positive)) case Fail => Fail
  }

  /** The chained comparison `low <= v <= high`: the second half is looked at only
      when the first holds. */
  function Within(v: Value, low: Value, high: Value): Outcome<Value> {
    if v.Null? || low.Null? || high.Null? then Done(Null)
    else
      match Less(v, low)
      case Fail => Fail
      case Done(below) => if below then Done(Bool(false)) else AsValue(Less(high, v), false)
  }

  /** A comparison of two present values. */
  function Compare(op: BinOp, a: Value, b: Value): Outcome<Value> {
    if op == Eq then Done(Bool(PyEq(a, b)))
    else if op == Ne then Done(Bool(!PyEq(a, b)))
    else if op == Lt then AsValue(Less(a, b), true)
    else if op == Le then AsValue(Less(b, a), false)
    else if op == Gt then AsValue(Less(b, a), true)
    else AsValue(Less(a, b), false)
  }

  /** Arithmetic on two present values; Python also adds and repeats strings. */
  function Compute(w: World, op: BinOp, a: Value, b: Value): Outcome<Value> {
    if a.Str? && b.Str? then (if op == Add then Done(Str(a.s + b.s)) else Fail)
    else if op == Div && PyEq(b, Int(0)) then Fail
    else if a.Str? && Num(b).Some? then (if op == Mul then Done(Str(Repeat(a.s, Num(b).value))) else Fail)
    else if b.Str? && Num(a).Some? then (if op == Mul then Done(Str(Repeat(b.s, Num(a).value))) else Fail)
    else if Num(a).None? || Num(b).None? then Fail
    else
      var x, y := Num(a).value, Num(b).value;
      if op == Add then Done(Int(x + y))
      else if op == Sub then Done(Int(x - y))
      else if op == Mul then Done(Int(x * y))
      else Done(w.quotient(x, y))
  }

  function ApplyBin(w: World, op: BinOp, a: Value, b: Value): Outcome<Value> {
    if op == And then Done(Both(a, b))
    else if op == Or then Done(Either(a, b))
    else if op == Between then Fail
    else if a.Null? || b.Null? then Done(Null)
    else if op == Like || op == NotLike then Done(Bool(w.like(w.text(a), w.text(b)) == (op == Like)))
    else if op == Add || op == Sub || op == Mul || op == Div then Compute(w, op, a, b)
    else Compare(op, a, b)
  }

  // ---- names ----

  /** The binding an alias stands for: the last of that name. */
  function AliasAt(srcs: seq<Source>, alias: Name): (o: Option<nat>)
    ensures o.Some? ==> o.value < |srcs| && srcs[o.value].alias == alias
    ensures o.None? ==> forall i :: 0 <= i < |srcs| ==> srcs[i].alias != alias
  {
    if srcs == [] then None
    else if srcs[|srcs| - 1].alias == alias then Some(|srcs| - 1)
    else AliasAt(srcs[..|srcs| - 1], alias)
  }

  /** The binding a bare column name stands for: the first that has it. */
  function ColumnAt(srcs: seq<Source>, name: Name): (o: Option<nat>)
    ensures o.Some? ==> o.value < |srcs| && name in srcs[o.value].columns
    ensures o.None? ==> forall i :: 0 <= i < |srcs| ==> name !in srcs[i].columns
  {
    if srcs == [] then None
    else if name in srcs[0].columns then Some(0)
    else match ColumnAt(srcs[1..], name) case None => None case Some(i) => Some(i + 1)
  }

  function Cell(srcs: seq<Source>, rows: seq<Row>, i: nat, name: Name): Outcome<Value>
    requires i < |srcs|
  {
    if name in srcs[i].columns && i < |rows| && IndexOf(srcs[i].columns, name) < |rows[i]|
    then Done(rows[i][IndexOf(srcs[i].columns, name)]) else Fail
  }

  /** `EvalContext.resolve` with no enclosing query. */
  function Resolve(srcs: seq<Source>, rows: seq<Row>, name: Name, table: Option<Name>): Outcome<Value> {
    match (if table.Some? then AliasAt(srcs, table.value) else ColumnAt(srcs, name))
    case None => Fail
    case Some(i) => Cell(srcs, rows, i, name)
  }

  // ---- evaluation ----

  function Eval(w: World, srcs: seq<Source>, rows: seq<Row>, e: Expr): Outcome<Value>
    decreases e
  {
    match e
    case Lit(v) => Done(v)
    case Col(name, table) => Resolve(srcs, rows, name, table)
    case Un(op, x) =>
      (match Eval(w, srcs, rows, x)
       case Fail => Fail
       case Done(v) => ApplyUn(op, v))
    case Bin(op, l, r) =>
      var a := Eval(w, srcs, rows, l);
      var b := Eval(w, srcs, rows, r);
      if a.Fail? || b.Fail? then Fail
      else if op == Between then
        if !r.Bin? then Fail
        else
          var low := Eval(w, srcs, rows, r.left);
          var high := Eval(w, srcs, rows, r.right);
          if low.Fail? || high.Fail? then Fail else Within(a.value, low.value, high.value)
      else ApplyBin(w, op, a.value, b.value)
    case Func(name, args, _, _) =>
      if args == [] then Fail
      else
        (match Eval(w, srcs, rows, args[0])
         case Fail => Fail
         case Done(v) =>
           if name == "UPPER" then Done(if v.Null? then Null else Str(w.upper(w.text(v))))
           else if name == "LOWER" then Done(if v.Null? then Null else Str(w.lower(w.text(v))))
           else Fail)
    case Query(id) => w.answer(id, srcs, rows)
  }

  predicate Holds(w: World, srcs: seq<Source>, rows: seq<Row>, e: Expr) {
    Eval(w, srcs, rows, e) == Done(Bool(true))
  }

  // ---- three truth values ----

  predicate IsTruth(v: Value) {
    v.Null? || v.Bool?
  }

  /** FALSE below UNKNOWN below TRUE. */
  function Grade(v: Value): nat {
    match v case Null => 1 case Bool(b) => (if b then 2 else 0) case _ => 3
  }

  function Min(a: nat, b: nat): nat { if a <= b then a else b }
  function Max(a: nat, b: nat): nat { if a <= b then b else a }

  /** AND, OR and NOT are the truth tables of SQL-92, section 8.12: the least, the
      greatest and the mirror of the three values. */
  lemma ThreeValued(a: Value, b: Value)
    requires IsTruth(a) && IsTruth(b)
    ensures IsTruth(Both(a, b)) && Grade(Both(a, b)) == Min(Grade(a), Grade(b))
    ensures IsTruth(Either(a, b)) && Grade(Either(a, b)) == Max(Grade(a), Grade(b))
    ensures IsTruth(Neither(a)) && Grade(Neither(a)) == 2 - Grade(a)
    ensures Neither(Both(a, b)) == Either(Neither(a), Neither(b))
    ensures Neither(Either(a, b)) == Both(Neither(a), Neither(b))
  {
    match a case Null => {} case Bool(x) => { match b case Null => {} case Bool(y) => {} }
  }

  // ---- conjuncts ----

  /** `split_conjuncts` of a present predicate. */
  function Split(e: Expr): (cs: seq<Expr>)
    ensures cs != []
  {
    if e.Bin? && e.op == And then Split(e.left) + Split(e.right) else [e]
  }

  /** `combine_conjuncts` and `_and_chain` on present predicates. */
  function Chain(cs: seq<Expr>): Expr
    requires cs != []
  {
    if |cs| == 1 then cs[0] else Bin(And, Chain(cs[..|cs| - 1]), cs[|cs| - 1])
  }

  predicate TruthIn(w: World, srcs: seq<Source>, rows: seq<Row>, e: Expr) {
    var o := Eval(w, srcs, rows, e);
    o.Done? && IsTruth(o.value)
  }

  predicate AllTruths(w: World, srcs: seq<Source>, rows: seq<Row>, cs: seq<Expr>) {
    forall i :: 0 <= i < |cs| ==> TruthIn(w, srcs, rows, cs[i])
  }

  predicate All(w: World, srcs: seq<Source>, rows: seq<Row>, cs: seq<Expr>) {
    forall i :: 0 <= i < |cs| ==> Holds(w, srcs, rows, cs[i])
  }

  lemma AllConcat(w: World, srcs: seq<Source>, rows: seq<Row>, cs: seq<Expr>, ds: seq<Expr>)
    ensures All(w, srcs, rows, cs + ds) <==> All(w, srcs, rows, cs) && All(w, srcs, rows, ds)
  {
    var es := cs + ds;
    assert forall i :: 0 <= i < |cs| ==> es[i] == cs[i];
    assert forall i :: 0 <= i < |ds| ==> es[|cs| + i] == ds[i];
  }

  lemma AllTruthsConcat(w: World, srcs: seq<Source>, rows: seq<Row>, cs: seq<Expr>, ds: seq<Expr>)
    ensures AllTruths(w, srcs, rows, cs + ds) <==> AllTruths(w, srcs, rows, cs) && AllTruths(w, srcs, rows, ds)
  {
    var es := cs + ds;
    assert forall i :: 0 <= i < |cs| ==> es[i] == cs[i];
    assert forall i :: 0 <= i < |ds| ==> es[|cs| + i] == ds[i];
  }

  /** A predicate whose conjuncts are truth values holds exactly when they all do. */
  lemma {:induction false} SplitHolds(w: World, srcs: seq<Source>, rows: seq<Row>, e: Expr)
    requires AllTruths(w, srcs, rows, Split(e))
    ensures TruthIn(w, srcs, rows, e)
    ensures Holds(w, srcs, rows, e) <==> All(w, srcs, rows, Split(e))
    decreases e
  {
    if e.Bin? && e.op == And {
      AllTruthsConcat(w, srcs, rows, Split(e.left), Split(e.right));
      AllConcat(w, srcs, rows, Split(e.left), Split(e.right));
      SplitHolds(w, srcs, rows, e.left);
      SplitHolds(w, srcs, rows, e.right);
      ThreeValued(Eval(w, srcs, rows, e.left).value, Eval(w, srcs, rows, e.right).value);
    } else {
      assert Split(e)[0] == e;
    }
  }

  /** Likewise a chain of conjuncts. */
  lemma {:induction false} ChainHolds(w: World, srcs: seq<Source>, rows: seq<Row>, cs: seq<Expr>)
    requires cs != [] && AllTruths(w, srcs, rows, cs)
    ensures TruthIn(w, srcs, rows, Chain(cs))
    ensures Holds(w, srcs, rows, Chain(cs)) <==> All(w, srcs, rows, cs)
    decreases |cs|
  {
    if |cs| > 1 {
      var init, last := cs[..|cs| - 1], cs[|cs| - 1];
      assert cs == init + [last];
      AllTruthsConcat(w, srcs, rows, init, [last]);
      AllConcat(w, srcs, rows, init, [last]);
      ChainHolds(w, srcs, rows, init);
      assert [last][0] == last;
      ThreeValued(Eval(w, srcs, rows, Chain(init)).value, Eval(w, srcs, rows, last).value);
    }
  }

  /** A conjunction of truth values. */
  lemma AndValue(w: World, srcs: seq<Source>, rows: seq<Row>, l: Expr, r: Expr)
    requires TruthIn(w, srcs, rows, l) && TruthIn(w, srcs, rows, r)
    ensures Eval(w, srcs, rows, Bin(And, l, r))
         == Done(Both(Eval(w, srcs, rows, l).value, Eval(w, srcs, rows, r).value))
    ensures TruthIn(w, srcs, rows, Bin(And, l, r))
  {
    ThreeValued(Eval(w, srcs, rows, l).value, Eval(w, srcs, rows, r).value);
  }

  lemma BothAssociates(a: Value, b: Value, c: Value)
    requires IsTruth(a) && IsTruth(b) && IsTruth(c)
    ensures Both(Both(a, b), c) == Both(a, Both(b, c))
  {
  }

  /** Taking a predicate apart and chaining the parts again keeps its value, also
      where it is UNKNOWN. */
  lemma {:induction false} ChainOfSplit(w: World, srcs: seq<Source>, rows: seq<Row>, e: Expr)
    requires AllTruths(w, srcs, rows, Split(e))
    ensures TruthIn(w, srcs, rows, e)
    ensures Eval(w, srcs, rows, Chain(Split(e))) == Eval(w, srcs, rows, e)
    decreases e
  {
    SplitHolds(w, srcs, rows, e);
    if e.Bin? && e.op == And {
      var l, r := Split(e.left), Split(e.right);
      AllTruthsConcat(w, srcs, rows, l, r);
      hide Eval, Chain, AllTruths, TruthIn, Both;
      ChainOfSplit(w, srcs, rows, e.left);
      ChainOfSplit(w, srcs, rows, e.right);
      ChainConcat(w, srcs, rows, l, r);
      AndValue(w, srcs, rows, e.left, e.right);
    }
  }

  lemma {:induction false} ChainConcat(w: World, srcs: seq<Source>, rows: seq<Row>, cs: seq<Expr>, ds: seq<Expr>)
    requires cs != [] && ds != [] && AllTruths(w, srcs, rows, cs) && AllTruths(w, srcs, rows, ds)
    ensures TruthIn(w, srcs, rows, Chain(cs)) && TruthIn(w, srcs, rows, Chain(ds)) &&
            TruthIn(w, srcs, rows, Chain(cs + ds))
    ensures Eval(w, srcs, rows, Chain(cs + ds))
         == Done(Both(Eval(w, srcs, rows, Chain(cs)).value, Eval(w, srcs, rows, Chain(ds)).value))
    decreases |ds|
  {
    var es := cs + ds;
    ChainHolds(w, srcs, rows, cs);
    ChainHolds(w, srcs, rows, ds);
    var init, last := ds[..|ds| - 1], ds[|ds| - 1];
    assert es[..|es| - 1] == cs + init && es[|es| - 1] == last;
    assert TruthIn(w, srcs, rows, last);
    hide Eval, Both;
    if |ds| == 1 {
      assert cs + init == cs;
      AndValue(w, srcs, rows, Chain(cs), last);
    } else {
      assert AllTruths(w, srcs, rows, init);
      ChainConcat(w, srcs, rows, cs, init);
      AndValue(w, srcs, rows, Chain(init), last);
      AndValue(w, srcs, rows, Chain(cs + init), last);
      BothAssociates(Eval(w, srcs, rows, Chain(cs)).value, Eval(w, srcs, rows, Chain(init)).value,
                     Eval(w, srcs, rows, last).value);
    }
  }
}
