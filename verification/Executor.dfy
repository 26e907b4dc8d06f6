/** A SELECT from its plan to its rows: `plan_select` of minidb/engine/planner.py
    as it builds its lists, and the scans, the primary-key lookup and the nested
    loops of minidb/engine/executor.py.  An exception anywhere is `Fail`. */
module Executor {
  import opened Basics
  import opened Expressions
  import opened Planner

  datatype JoinSpec = JoinSpec(kind: Kind, src: Source, on: Expr)
  datatype Select = Select(base: Source, joins: seq<JoinSpec>, filter: Option<Expr>)

  datatype ScanPlan = ScanPlan(src: Source, pushed: seq<Option<Expr>>)
  datatype JoinPlan = JoinPlan(scan: ScanPlan, kind: Kind, aside: seq<Expr>, pred: Option<Expr>)
  datatype QueryPlan = QueryPlan(base: ScanPlan, joins: seq<JoinPlan>, residual: seq<Option<Expr>>)

  // ---- the plan as a value ----

  function Somes(cs: seq<Expr>): seq<Option<Expr>> {
    seq(|cs|, i requires 0 <= i < |cs| => Some(cs[i]))
  }

  /** `split_conjuncts`, which turns an absent WHERE into the one conjunct `None`. */
  function SplitWhere(filter: Option<Expr>): seq<Option<Expr>> {
    if filter.None? then [None] else Somes(Split(filter.value))
  }

  function WhereOf(q: Select): seq<Expr> {
    if q.filter.None? then [] else Split(q.filter.value)
  }

  /** The joins of a query as stages on given tables, each ON split up. */
  function StagesOn(joins: seq<JoinSpec>, tables: seq<seq<Row>>): seq<Stage>
    requires |tables| == |joins|
  {
    seq(|joins|, i requires 0 <= i < |joins| => Stage(joins[i].kind, joins[i].src, tables[i], [], Split(joins[i].on)))
  }

  function Shape(joins: seq<JoinSpec>): seq<Stage> {
    StagesOn(joins, seq(|joins|, _ => []))
  }

  /** `None` counts as local to any table. */
  function PlaceOfAny(c: Option<Expr>, base: Source, stages: seq<Stage>): Option<nat> {
    if c.None? then Some(0) else PlaceOf(c.value, base, stages)
  }

  function AnyPart(cs: seq<Option<Expr>>, base: Source, stages: seq<Stage>, at: Option<nat>): seq<Option<Expr>> {
    if cs == [] then []
    else
      var rest := AnyPart(cs[1..], base, stages, at);
      if PlaceOfAny(cs[0], base, stages) == at then [cs[0]] + rest else rest
  }

  function ScanPart(cs: seq<Option<Expr>>, q: Select, i: nat): seq<Option<Expr>> {
    AnyPart(cs, q.base, Shape(q.joins), Some(i + 1))
  }

  function ChainOf(cs: seq<Expr>): Option<Expr> {
    if cs == [] then None else Some(Chain(cs))
  }

  function JoinPlanOf(q: Select, i: nat): JoinPlan
    requires i < |q.joins|
  {
    var j := q.joins[i];
    JoinPlan(ScanPlan(j.src, ScanPart(SplitWhere(q.filter), q, i)), j.kind,
             OnPart(Split(j.on), j.kind, j.src, q.base, RightSide),
             ChainOf(OnPart(Split(j.on), j.kind, j.src, q.base, BothSides)))
  }

  function PlanOf(q: Select): QueryPlan {
    var cs, all := SplitWhere(q.filter), Shape(q.joins);
    QueryPlan(ScanPlan(q.base, AnyPart(cs, q.base, all, Some(0)) + Somes(BaseParts(q.base, all))),
              seq(|q.joins|, i requires 0 <= i < |q.joins| => JoinPlanOf(q, i)),
              AnyPart(cs, q.base, all, None))
  }

  // ---- where each conjunct ends up ----

  lemma {:induction false} AnyPartHas(cs: seq<Option<Expr>>, base: Source, stages: seq<Stage>, at: Option<nat>,
                                      c: Option<Expr>)
    ensures c in AnyPart(cs, base, stages, at) <==> c in cs && PlaceOfAny(c, base, stages) == at
  {
    if cs != [] { AnyPartHas(cs[1..], base, stages, at, c); }
  }

  lemma {:induction false} OnPartHas(on: seq<Expr>, kind: Kind, src: Source, base: Source, side: Side, c: Expr)
    ensures c in OnPart(on, kind, src, base, side) <==> c in on && SideOf(c, kind, src, base) == side
  {
    if on != [] { OnPartHas(on[1..], kind, src, base, side, c); }
  }

  lemma {:induction false} BasePartsHave(base: Source, stages: seq<Stage>, i: nat, c: Expr)
    requires i < |stages| && c in stages[i].on && SideOf(c, stages[i].kind, stages[i].src, base) == BaseSide
    ensures c in BaseParts(base, stages)
    decreases |stages|
  {
    if i == 0 {
      OnPartHas(stages[0].on, stages[0].kind, stages[0].src, base, BaseSide, c);
    } else {
      BasePartsHave(base, stages[1..], i - 1, c);
    }
  }

  /** The conjunct can be tested when the table of this join is scanned. */
  predicate ScansAt(j: JoinSpec, c: Expr) {
    j.kind == Inner && Local(c, j.src)
  }

  lemma {:induction false} PlacedFirst(joins: seq<JoinSpec>, c: Expr, i: nat)
    requires i <= |joins| == |Shape(joins)|
    ensures var at := PlaceAmong(c, Shape(joins), i);
      && (at == None <==> forall j :: i <= j < |joins| ==> !ScansAt(joins[j], c))
      && (at.Some? ==> i < at.value <= |joins| && ScansAt(joins[at.value - 1], c)
                       && forall j :: i <= j < at.value - 1 ==> !ScansAt(joins[j], c))
    decreases |joins| - i
  {
    ShapeAt(joins);
    hide Local, Shape, Split;
    if i < |joins| {
      assert Shape(joins)[i].kind == joins[i].kind && Shape(joins)[i].src == joins[i].src;
      PlacedFirst(joins, c, i + 1);
    }
  }

  lemma ShapeAt(joins: seq<JoinSpec>)
    ensures |Shape(joins)| == |joins|
    ensures forall i :: 0 <= i < |joins| ==>
              Shape(joins)[i].kind == joins[i].kind && Shape(joins)[i].src == joins[i].src
  {
    hide Split;
  }

  /** A WHERE conjunct goes to the scan of the first table it is local to, the base table or
      one joined by INNER JOIN, and stays behind the joins exactly if there is none. */
  lemma WherePlaced(q: Select, c: Expr, i: nat)
    requires q.filter.Some? && c in Split(q.filter.value) && i < |q.joins|
    ensures var plan := PlanOf(q);
      && (Local(c, q.base) ==> Some(c) in plan.base.pushed)
      && (Some(c) in plan.joins[i].scan.pushed <==>
            !Local(c, q.base) && ScansAt(q.joins[i], c) && forall j :: 0 <= j < i ==> !ScansAt(q.joins[j], c))
      && (Some(c) in plan.residual <==>
            !Local(c, q.base) && forall j :: 0 <= j < |q.joins| ==> !ScansAt(q.joins[j], c))
  {
    hide *;
    var cs, all := SplitWhere(q.filter), Shape(q.joins);
    PlanParts(q, i);
    WhereHas(q, c);
    PlaceIs(q, c);
    ShapeAt(q.joins);
    PlacedFirst(q.joins, c, 0);
    AnyPartHas(cs, q.base, all, Some(0), Some(c));
    AnyPartHas(cs, q.base, all, Some(i + 1), Some(c));
    AnyPartHas(cs, q.base, all, None, Some(c));
  }

  lemma WhereHas(q: Select, c: Expr)
    requires q.filter.Some? && c in Split(q.filter.value)
    ensures Some(c) in SplitWhere(q.filter)
  {
    SomesHave(Split(q.filter.value), c);
  }

  lemma PlaceIs(q: Select, c: Expr)
    ensures PlaceOfAny(Some(c), q.base, Shape(q.joins))
         == if Local(c, q.base) then Some(0) else PlaceAmong(c, Shape(q.joins), 0)
  {
    hide Local, Shape, PlaceAmong;
  }

  lemma PlanParts(q: Select, i: nat)
    requires i < |q.joins|
    ensures var plan, cs, all := PlanOf(q), SplitWhere(q.filter), Shape(q.joins);
      && |plan.joins| == |q.joins| && plan.joins[i].scan.pushed == AnyPart(cs, q.base, all, Some(i + 1))
      && plan.base.pushed == AnyPart(cs, q.base, all, Some(0)) + Somes(BaseParts(q.base, all))
      && plan.residual == AnyPart(cs, q.base, all, None)
  {
    hide AnyPart, BaseParts, OnPart, Split, Chain;
  }

  lemma SomesHave(cs: seq<Expr>, c: Expr)
    requires c in cs
    ensures Some(c) in Somes(cs)
  {
    var i :| 0 <= i < |cs| && cs[i] == c;
    assert Somes(cs)[i] == Some(c);
  }

  /** An ON conjunct is set aside exactly if it is local to the right table; otherwise, in an
      INNER JOIN, it goes to the scan of the base table if it is local to that. */
  lemma OnPlaced(q: Select, c: Expr, i: nat)
    requires i < |q.joins| && c in Split(q.joins[i].on)
    ensures var plan := PlanOf(q);
      && (c in plan.joins[i].aside <==> Local(c, q.joins[i].src))
      && (!Local(c, q.joins[i].src) && q.joins[i].kind == Inner && Local(c, q.base) ==> Some(c) in plan.base.pushed)
  {
    var j, all := q.joins[i], Shape(q.joins);
    OnPartHas(Split(j.on), j.kind, j.src, q.base, RightSide, c);
    assert all[i] == Stage(j.kind, j.src, [], [], Split(j.on));
    if SideOf(c, j.kind, j.src, q.base) == BaseSide {
      BasePartsHave(q.base, all, i, c);
      SomesHave(BaseParts(q.base, all), c);
    }
    hide AnyPart, Local, Split, BaseParts, OnPart, Shape;
  }

  // ---- the planner's loops ----

  lemma {:induction false} AnyPartSnoc(cs: seq<Option<Expr>>, c: Option<Expr>, base: Source, stages: seq<Stage>,
                                       at: Option<nat>)
    ensures AnyPart(cs + [c], base, stages, at)
         == AnyPart(cs, base, stages, at) + if PlaceOfAny(c, base, stages) == at then [c] else []
    decreases |cs|
  {
    hide PlaceOfAny;
    if cs == [] {
      assert cs + [c] == [c] && [c][1..] == [];
    } else {
      assert (cs + [c])[0] == cs[0] && (cs + [c])[1..] == cs[1..] + [c];
      AnyPartSnoc(cs[1..], c, base, stages, at);
    }
  }

  lemma {:induction false} OnPartSnoc(on: seq<Expr>, c: Expr, kind: Kind, src: Source, base: Source, side: Side)
    ensures OnPart(on + [c], kind, src, base, side)
         == OnPart(on, kind, src, base, side) + if SideOf(c, kind, src, base) == side then [c] else []
    decreases |on|
  {
    hide SideOf;
    if on == [] {
      assert on + [c] == [c] && [c][1..] == [];
    } else {
      assert (on + [c])[0] == on[0] && (on + [c])[1..] == on[1..] + [c];
      OnPartSnoc(on[1..], c, kind, src, base, side);
    }
  }

  lemma {:induction false} BasePartsSnoc(base: Source, stages: seq<Stage>, s: Stage)
    ensures BaseParts(base, stages + [s]) == BaseParts(base, stages) + OnPart(s.on, s.kind, s.src, base, BaseSide)
    decreases |stages|
  {
    hide OnPart;
    if stages == [] {
      assert stages + [s] == [s] && [s][1..] == [];
    } else {
      assert (stages + [s])[0] == stages[0] && (stages + [s])[1..] == stages[1..] + [s];
      BasePartsSnoc(base, stages[1..], s);
    }
  }

  /** The scan loop for one WHERE conjunct; joined scans of LEFT JOINs are skipped. */
  method FindScan(q: Select, c: Option<Expr>) returns (at: Option<nat>)
    ensures at == PlaceOfAny(c, q.base, Shape(q.joins))
  {
    if c.None? || Local(c.value, q.base) {
      return Some(0);
    }
    ghost var all := Shape(q.joins);
    hide Local;
    var i := 0;
    while i < |q.joins|
      invariant 0 <= i <= |q.joins|
      invariant PlaceOfAny(c, q.base, all) == PlaceAmong(c.value, all, i)
    {
      assert all[i].kind == q.joins[i].kind && all[i].src == q.joins[i].src;
      if q.joins[i].kind != LeftOuter && Local(c.value, q.joins[i].src) {
        return Some(i + 1);
      }
      i := i + 1;
    }
    at := None;
  }

  /** The conjuncts `cs` are where they belong. */
  ghost predicate Placed(q: Select, cs: seq<Option<Expr>>, base: seq<Option<Expr>>, scans: seq<seq<Option<Expr>>>,
                         residual: seq<Option<Expr>>)
  {
    && base == AnyPart(cs, q.base, Shape(q.joins), Some(0))
    && |scans| == |q.joins| && (forall i :: 0 <= i < |scans| ==> scans[i] == ScanPart(cs, q, i))
    && residual == AnyPart(cs, q.base, Shape(q.joins), None)
  }

  lemma PlacedStep(q: Select, cs: seq<Option<Expr>>, c: Option<Expr>, base: seq<Option<Expr>>,
                   scans: seq<seq<Option<Expr>>>, residual: seq<Option<Expr>>, at: Option<nat>)
    requires Placed(q, cs, base, scans, residual) && at == PlaceOfAny(c, q.base, Shape(q.joins))
    ensures at == None ==> Placed(q, cs + [c], base, scans, residual + [c])
    ensures at == Some(0) ==> Placed(q, cs + [c], base + [c], scans, residual)
    ensures at.Some? ==> at.value <= |scans|
    ensures at.Some? && at.value > 0 ==>
              Placed(q, cs + [c], base, scans[at.value - 1 := scans[at.value - 1] + [c]], residual)
  {
    PlaceInRange(q, c);
    AnyPartSnoc(cs, c, q.base, Shape(q.joins), None);
    AnyPartSnoc(cs, c, q.base, Shape(q.joins), Some(0));
    forall i | 0 <= i < |scans|
      ensures ScanPart(cs + [c], q, i) == ScanPart(cs, q, i) + if at == Some(i + 1) then [c] else []
    {
      AnyPartSnoc(cs, c, q.base, Shape(q.joins), Some(i + 1));
    }
    hide PlaceOfAny, Shape, AnyPart, ScanPart;
  }

  lemma PlaceInRange(q: Select, c: Option<Expr>)
    ensures var at := PlaceOfAny(c, q.base, Shape(q.joins)); at.Some? ==> at.value <= |q.joins|
  {
  }

  /** The loop over the WHERE conjuncts. */
  method PlaceWhere(q: Select) returns (base: seq<Option<Expr>>, scans: seq<seq<Option<Expr>>>,
                    residual: seq<Option<Expr>>)
    ensures Placed(q, SplitWhere(q.filter), base, scans, residual)
  {
    var cs := SplitWhere(q.filter);
    base, residual := [], [];
    scans := seq(|q.joins|, _ => []);
    assert Placed(q, [], base, scans, residual);
    hide Placed, PlaceOfAny, SplitWhere, Shape;
    var n := 0;
    assert cs[..0] == [];
    while n < |cs|
      invariant 0 <= n <= |cs| && Placed(q, cs[..n], base, scans, residual)
    {
      assert cs[..n + 1] == cs[..n] + [cs[n]];
      var at := FindScan(q, cs[n]);
      PlacedStep(q, cs[..n], cs[n], base, scans, residual, at);
      if at.None? {
        residual := residual + [cs[n]];
      } else if at.value == 0 {
        base := base + [cs[n]];
      } else {
        scans := scans[at.value - 1 := scans[at.value - 1] + [cs[n]]];
      }
      n := n + 1;
    }
    assert cs[..|cs|] == cs;
  }

  /** The inner loop over the conjuncts of one ON. */
  method PlaceOn(j: JoinSpec, base: Source) returns (aside: seq<Expr>, toBase: seq<Expr>, rest: seq<Expr>)
    ensures var on := Split(j.on);
      && aside == OnPart(on, j.kind, j.src, base, RightSide)
      && toBase == OnPart(on, j.kind, j.src, base, BaseSide)
      && rest == OnPart(on, j.kind, j.src, base, BothSides)
  {
    var on := Split(j.on);
    aside, toBase, rest := [], [], [];
    hide Local, Split;
    var n := 0;
    while n < |on|
      invariant 0 <= n <= |on|
      invariant aside == OnPart(on[..n], j.kind, j.src, base, RightSide)
      invariant toBase == OnPart(on[..n], j.kind, j.src, base, BaseSide)
      invariant rest == OnPart(on[..n], j.kind, j.src, base, BothSides)
    {
      var c := on[n];
      assert on[..n + 1] == on[..n] + [c];
      OnPartSnoc(on[..n], c, j.kind, j.src, base, RightSide);
      OnPartSnoc(on[..n], c, j.kind, j.src, base, BaseSide);
      OnPartSnoc(on[..n], c, j.kind, j.src, base, BothSides);
      if Local(c, j.src) {
        aside := aside + [c];
      } else if j.kind == Inner && Local(c, base) {
        toBase := toBase + [c];
      } else {
        rest := rest + [c];
      }
      n := n + 1;
    }
    assert on[..|on|] == on;
  }

  lemma SomesConcat(cs: seq<Expr>, ds: seq<Expr>)
    ensures Somes(cs + ds) == Somes(cs) + Somes(ds)
  {
  }

  method PlanSelect(q: Select) returns (plan: QueryPlan)
    ensures plan == PlanOf(q)
  {
    var base, scans, residual := PlaceWhere(q);
    ghost var all := Shape(q.joins);
    ghost var base0 := base;
    var joins: seq<JoinPlan> := [];
    hide AnyPart, OnPart, Split, SplitWhere, ChainOf;
    assert base == base0 + Somes(BaseParts(q.base, []));
    var i := 0;
    while i < |q.joins|
      invariant 0 <= i <= |q.joins| == |all|
      invariant base == base0 + Somes(BaseParts(q.base, all[..i]))
      invariant |joins| == i && forall k :: 0 <= k < i ==> joins[k] == JoinPlanOf(q, k)
    {
      var j := q.joins[i];
      var aside, toBase, rest := PlaceOn(j, q.base);
      assert all[..i + 1] == all[..i] + [all[i]];
      BasePartsSnoc(q.base, all[..i], all[i]);
      SomesConcat(BaseParts(q.base, all[..i]), toBase);
      base := base + Somes(toBase);
      joins := joins + [JoinPlan(ScanPlan(j.src, scans[i]), j.kind, aside, ChainOf(rest))];
      i := i + 1;
    }
    assert all[..|all|] == all;
    plan := QueryPlan(ScanPlan(q.base, base), joins, residual);
  }

  // ---- tables and their primary key ----

  datatype ColType = IntCol | BoolCol | TextCol(limit: Option<nat>)
  datatype PrimaryKey = PrimaryKey(name: Name, colType: ColType)

  /** What a snapshot shows of a table, in key order. */
  datatype Data = Data(pk: Option<PrimaryKey>, entries: seq<(Value, Row)>)

  /** `convert_value` for a column that is not nullable. */
  function Convert(w: World, t: ColType, v: Value): Outcome<Value> {
    if v.Null? then Fail
    else match t
      case IntCol =>
        if v.Str? then (var n := w.number(v.s); if n.Some? then Done(Int(n.value)) else Fail)
        else Done(Int(Num(v).value))
      case BoolCol =>
        if v.Bool? then Done(v)
        else if v.Int? then (if v.n == 0 || v.n == 1 then Done(Bool(v.n == 1)) else Fail)
        else if w.fold(v.s) in ["true", "t", "1", "yes"] then Done(Bool(true))
        else if w.fold(v.s) in ["false", "f", "0", "no"] then Done(Bool(false))
        else Fail
      case TextCol(limit) =>
        var text := if v.Str? then v.s else if v.Bool? then (if v.b then "TRUE" else "FALSE") else w.text(v);
        if limit.Some? && |text| > limit.value then Fail else Done(Str(text))
  }

  /** A value as a column of the type stores it. */
  predicate Native(t: ColType, v: Value) {
    match t case IntCol => v.Int? case BoolCol => v.Bool? case TextCol(_) => v.Str?
  }

  predicate IsKeyColumn(e: Expr, pk: Name, alias: Name) {
    e.Col? && e.name == pk && (e.table.None? || e.table.value == alias)
  }

  /** `_pk_eq_key`: the key a conjunct pins down. */
  function PinnedKey(w: World, c: Option<Expr>, pk: PrimaryKey, alias: Name): Option<Value> {
    if c.None? || !c.value.Bin? || c.value.op != Eq then None
    else
      var l, r := c.value.left, c.value.right;
      var raw := if IsKeyColumn(l, pk.name, alias) && r.Lit? then Some(r.value)
                 else if IsKeyColumn(r, pk.name, alias) && l.Lit? then Some(l.value) else None;
      if raw.None? then None
      else match Convert(w, pk.colType, raw.value) case Fail => None case Done(k) => Some(k)
  }

  function PinnedKeys(w: World, cs: seq<Option<Expr>>, pk: PrimaryKey, alias: Name): seq<Value> {
    if cs == [] then []
    else
      var rest := PinnedKeys(w, cs[1..], pk, alias);
      match PinnedKey(w, cs[0], pk, alias) case None => rest case Some(k) => [k] + rest
  }

  /** `_index_keys` and `_where_pk_keys`: nothing pinned, one key, or none because
      two conjuncts disagree. */
  function IndexKeys(w: World, cs: seq<Option<Expr>>, pk: Option<PrimaryKey>, alias: Name): Option<seq<Value>> {
    if pk.None? then None
    else
      var keys := PinnedKeys(w, cs, pk.value, alias);
      if keys == [] then None
      else if forall i :: 0 <= i < |keys| ==> PyEq(keys[i], keys[0]) then Some([keys[0]])
      else Some([])
  }

  /** `visible_version` by key. */
  function Lookup(entries: seq<(Value, Row)>, key: Value): seq<(Value, Row)> {
    if entries == [] then []
    else if entries[0].0 == key then [entries[0]]
    else Lookup(entries[1..], key)
  }

  /** The entries a scan looks at: all of them, or what the point lookup finds. */
  function Candidates(w: World, cs: seq<Option<Expr>>, src: Source, t: Data): seq<(Value, Row)> {
    match IndexKeys(w, cs, t.pk, src.alias)
    case None => t.entries
    case Some(keys) => if keys == [] then [] else Lookup(t.entries, keys[0])
  }

  // ---- predicates as the executor holds them ----

  /** `combine_conjuncts`: no predicate, one to evaluate, or a chain with `None`
      inside, which raises whenever it is evaluated. */
  datatype Pred = Always | When(e: Expr) | Broken

  function Combine(cs: seq<Option<Expr>>): Pred {
    if cs == [] || cs == [None] then Always
    else if exists i :: 0 <= i < |cs| && cs[i].None? then Broken
    else When(Chain(seq(|cs|, i requires 0 <= i < |cs| => cs[i].value)))
  }

  function Test(w: World, srcs: seq<Source>, rows: Joined, p: Pred): Outcome<bool> {
    match p
    case Always => Done(true)
    case Broken => Fail
    case When(e) => match Eval(w, srcs, rows, e) case Fail => Fail case Done(v) => Done(v == Bool(true))
  }

  /** A row passes a predicate exactly if it evaluates to TRUE; NULL, FALSE and any value
      that is no truth value keep it out, and only an error raises. */
  lemma PassesExactly(w: World, srcs: seq<Source>, rows: Joined, e: Expr)
    ensures Test(w, srcs, rows, When(e)) == Done(true) <==> Holds(w, srcs, rows, e)
    ensures Test(w, srcs, rows, When(e)) == Fail <==> Eval(w, srcs, rows, e) == Fail
    ensures Test(w, srcs, rows, Always) == Done(true) && Test(w, srcs, rows, Broken) == Fail
  {
  }

  // ---- lists that may fail ----

  function Appended<T>(first: seq<T>, o: Outcome<seq<T>>): Outcome<seq<T>> {
    match o case Fail => Fail case Done(rest) => Done(first + rest)
  }

  lemma AppendedTwice<T>(a: seq<T>, b: seq<T>, o: Outcome<seq<T>>)
    ensures Appended([], o) == o
    ensures Appended(a + b, o) == Appended(a, Appended(b, o))
    ensures Appended(a, Done([])) == Done(a)
  {
    assert o.Done? ==> [] + o.value == o.value && a + b + o.value == a + (b + o.value);
    assert a + [] == a;
  }

  // ---- scans ----

  /** The accepted entries of a list. */
  function Accepted(w: World, src: Source, p: Pred, entries: seq<(Value, Row)>): Outcome<seq<(Value, Row)>> {
    if entries == [] then Done([])
    else
      var ok, rest := Test(w, [src], [entries[0].1], p), Accepted(w, src, p, entries[1..]);
      if ok.Fail? then Fail else Appended(if ok.value then [entries[0]] else [], rest)
  }

  function RowsOf(entries: seq<(Value, Row)>): seq<Row> {
    seq(|entries|, i requires 0 <= i < |entries| => entries[i].1)
  }

  function Scan(w: World, s: ScanPlan, t: Data): Outcome<seq<Row>> {
    match Accepted(w, s.src, Combine(s.pushed), Candidates(w, s.pushed, s.src, t))
    case Fail => Fail
    case Done(es) => Done(RowsOf(es))
  }

  method AcceptAll(w: World, src: Source, p: Pred, entries: seq<(Value, Row)>) returns (out: Outcome<seq<(Value, Row)>>)
    ensures out == Accepted(w, src, p, entries)
  {
    var kept: seq<(Value, Row)> := [];
    var i := 0;
    assert entries[0..] == entries;
    AppendedTwice([], [], Accepted(w, src, p, entries));
    hide Test, Appended;
    while i < |entries|
      invariant 0 <= i <= |entries|
      invariant Accepted(w, src, p, entries) == Appended(kept, Accepted(w, src, p, entries[i..]))
    {
      assert entries[i..][0] == entries[i] && entries[i..][1..] == entries[i + 1..];
      var ok := Test(w, [src], [entries[i].1], p);
      if ok.Fail? {
        AppendFail(kept);
        return Fail;
      }
      AppendedTwice(kept, if ok.value then [entries[i]] else [], Accepted(w, src, p, entries[i + 1..]));
      if ok.value {
        kept := kept + [entries[i]];
      }
      assert ok.value || kept + [] == kept;
      i := i + 1;
    }
    assert entries[i..] == [];
    AppendedTwice(kept, [], Done([]));
    out := Done(kept);
  }

  lemma AppendFail<T>(a: seq<T>)
    ensures Appended(a, Fail) == Fail
  {
  }

  /** The keys the conjuncts pin down, one by one. */
  method CollectKeys(w: World, cs: seq<Option<Expr>>, pk: PrimaryKey, alias: Name) returns (found: seq<Value>)
    ensures found == PinnedKeys(w, cs, pk, alias)
  {
    hide PinnedKey;
    found := [];
    var i := 0;
    assert cs[0..] == cs;
    while i < |cs|
      invariant 0 <= i <= |cs|
      invariant PinnedKeys(w, cs, pk, alias) == found + PinnedKeys(w, cs[i..], pk, alias)
    {
      assert cs[i..][1..] == cs[i + 1..];
      var k := PinnedKey(w, cs[i], pk, alias);
      if k.Some? {
        found := found + [k.value];
      }
      i := i + 1;
    }
  }

  method KeysPinned(w: World, cs: seq<Option<Expr>>, pk: Option<PrimaryKey>,
                    alias: Name) returns (keys: Option<seq<Value>>)
    ensures keys == IndexKeys(w, cs, pk, alias)
  {
    if pk.None? {
      return None;
    }
    hide PinnedKeys, PyEq;
    var found := CollectKeys(w, cs, pk.value, alias);
    if found == [] {
      return None;
    }
    var n := 1;
    assert PyEq(found[0], found[0]) by { EqualToItself(found[0]); }
    while n < |found|
      invariant 1 <= n <= |found|
      invariant forall k :: 0 <= k < n ==> PyEq(found[k], found[0])
    {
      if !PyEq(found[n], found[0]) {
        return Some([]);
      }
      n := n + 1;
    }
    keys := Some([found[0]]);
  }

  lemma EqualToItself(v: Value)
    ensures PyEq(v, v)
  {
  }

  method ScanTable(w: World, s: ScanPlan, t: Data) returns (out: Outcome<seq<Row>>)
    ensures out == Scan(w, s, t)
  {
    var keys := KeysPinned(w, s.pushed, t.pk, s.src.alias);
    var entries := t.entries;
    if keys.Some? {
      entries := if keys.value == [] then [] else Lookup(t.entries, keys.value[0]);
    }
    var es := AcceptAll(w, s.src, Combine(s.pushed), entries);
    out := match es case Fail => Fail case Done(x) => Done(RowsOf(x));
  }

  // ---- the point lookup is the full scan ----

  /** Every row stores its key in the primary-key column, keys are stored in the
      column's type, and no two entries share one. */
  predicate Keyed(src: Source, t: Data) {
    t.pk.Some? ==>
      && t.pk.value.name in src.columns
      && (forall i :: 0 <= i < |t.entries| ==> KeyedEntry(src, t.pk.value, t.entries[i]))
      && (forall i, j :: 0 <= i < j < |t.entries| ==> t.entries[i].0 != t.entries[j].0)
  }

  predicate KeyedEntry(src: Source, pk: PrimaryKey, e: (Value, Row))
    requires pk.name in src.columns
  {
    var i := IndexOf(src.columns, pk.name);
    Native(pk.colType, e.0) && i < |e.1| && e.1[i] == e.0
  }

  /** Python equality with a literal means equality with the converted literal. */
  lemma ConvertedEqual(w: World, t: ColType, v: Value, raw: Value)
    requires Native(t, v) && !raw.Null? && PyEq(v, raw) && Convert(w, t, raw).Done?
    ensures Convert(w, t, raw).value == v
  {
    match t
    case IntCol =>
    case BoolCol => if raw.Int? { assert Num(v) == Num(raw); }
    case TextCol(_) =>
  }

  /** Conversion gives a value as the column stores it, and leaves such a value alone
      unless it is too long. */
  lemma ConvertStores(w: World, t: ColType, v: Value)
    ensures Convert(w, t, v).Done? ==> Native(t, Convert(w, t, v).value)
    ensures Native(t, v) ==>
              Convert(w, t, v) == if t.TextCol? && t.limit.Some? && |v.s| > t.limit.value then Fail else Done(v)
    ensures t == IntCol ==> Convert(w, t, Bool(true)) == Done(Int(1)) && Convert(w, t, Bool(false)) == Done(Int(0))
    ensures t == BoolCol ==> forall n :: Convert(w, t, Int(n)).Done? <==> n == 0 || n == 1
    ensures Convert(w, t, Null) == Fail
  {
  }

  /** A conjunct pins a key down exactly if it equates the key column, bare or under the
      table's alias, with a literal that the column's type can take. */
  lemma PinsExactly(w: World, c: Expr, pk: PrimaryKey, alias: Name, k: Value)
    ensures PinnedKey(w, Some(c), pk, alias) == Some(k)
       <==> exists table, raw :: (table == None || table == Some(alias)) && Convert(w, pk.colType, raw) == Done(k)
              && (c == Bin(Eq, Col(pk.name, table), Lit(raw)) || c == Bin(Eq, Lit(raw), Col(pk.name, table)))
    ensures PinnedKey(w, None, pk, alias) == None
  {
    if PinnedKey(w, Some(c), pk, alias) == Some(k) {
      var onLeft := IsKeyColumn(c.left, pk.name, alias) && c.right.Lit?;
      var key, raw := if onLeft then c.left else c.right, if onLeft then c.right.value else c.left.value;
      assert c == if onLeft then Bin(Eq, key, Lit(raw)) else Bin(Eq, Lit(raw), key);
      assert key == Col(pk.name, key.table) && Convert(w, pk.colType, raw) == Done(k);
    }
  }

  lemma {:induction false} PinnedSome(w: World, cs: seq<Option<Expr>>, pk: PrimaryKey, alias: Name, i: nat)
    requires i < |cs| && PinnedKey(w, cs[i], pk, alias).Some?
    ensures PinnedKeys(w, cs, pk, alias) != []
    decreases |cs|
  {
    hide PinnedKey;
    if i > 0 { PinnedSome(w, cs[1..], pk, alias, i - 1); }
  }

  lemma {:induction false} LookupFindsOne(entries: seq<(Value, Row)>, key: Value)
    ensures |Lookup(entries, key)| <= 1 && forall e :: e in Lookup(entries, key) ==> e in entries && e.0 == key
  {
    if entries != [] && entries[0].0 != key { LookupFindsOne(entries[1..], key); }
  }

  /** With a key pinned down, a scan looks at one entry at most, the one under that key. */
  lemma LooksAtOne(w: World, cs: seq<Option<Expr>>, src: Source, t: Data, i: nat)
    requires t.pk.Some? && i < |cs| && PinnedKey(w, cs[i], t.pk.value, src.alias).Some?
    ensures var found := Candidates(w, cs, src, t);
      && |found| <= 1
      && forall e :: e in found ==> e in t.entries && PyEq(PinnedKey(w, cs[i], t.pk.value, src.alias).value, e.0)
  {
    var pk := t.pk.value;
    var keys := PinnedKeys(w, cs, pk, src.alias);
    PinnedSome(w, cs, pk, src.alias, i);
    PinnedIn(w, cs, pk, src.alias, i);
    hide PinnedKey;
    if forall n :: 0 <= n < |keys| ==> PyEq(keys[n], keys[0]) { LookupFindsOne(t.entries, keys[0]); }
  }

  lemma {:induction false} PinnedIn(w: World, cs: seq<Option<Expr>>, pk: PrimaryKey, alias: Name, i: nat)
    requires i < |cs| && PinnedKey(w, cs[i], pk, alias).Some?
    ensures PinnedKey(w, cs[i], pk, alias).value in PinnedKeys(w, cs, pk, alias)
    decreases |cs|
  {
    hide PinnedKey;
    if i > 0 { PinnedIn(w, cs[1..], pk, alias, i - 1); }
  }

  lemma PinnedMeans(w: World, src: Source, pk: PrimaryKey, e: (Value, Row), c: Option<Expr>)
    requires pk.name in src.columns && KeyedEntry(src, pk, e)
    requires PinnedKey(w, c, pk, src.alias).Some?
    requires Holds(w, [src], [e.1], c.value)
    ensures PinnedKey(w, c, pk, src.alias).value == e.0
  {
    var l, r := c.value.left, c.value.right;
    var onLeft := IsKeyColumn(l, pk.name, src.alias) && r.Lit?;
    var raw := if onLeft then r.value else l.value;
    var key := if onLeft then l else r;
    assert IsKeyColumn(key, pk.name, src.alias);
    KeyColumnValue(w, src, pk, e, key);
    assert Eval(w, [src], [e.1], c.value) == ApplyBin(w, Eq, if onLeft then e.0 else raw, if onLeft then raw else e.0);
    assert !raw.Null? && PyEq(e.0, raw);
    ConvertedEqual(w, pk.colType, e.0, raw);
  }

  lemma KeyColumnValue(w: World, src: Source, pk: PrimaryKey, e: (Value, Row), c: Expr)
    requires pk.name in src.columns && KeyedEntry(src, pk, e)
    requires IsKeyColumn(c, pk.name, src.alias)
    ensures Eval(w, [src], [e.1], c) == Done(e.0)
  {
    var srcs, rows := [src], [e.1];
    assert srcs[0] == src && rows[0] == e.1;
    if c.table.Some? {
      assert AliasAt(srcs, c.table.value) == Some(0);
    } else {
      assert ColumnAt(srcs, c.name) == Some(0);
    }
  }

  predicate IsEq(e: Expr) {
    e.Bin? && e.op == Eq
  }

  lemma EqIsTruth(w: World, srcs: seq<Source>, rows: Joined, e: Expr)
    requires IsEq(e) || (e.Bin? && e.op == And)
    ensures Eval(w, srcs, rows, e).Done? ==> IsTruth(Eval(w, srcs, rows, e).value)
  {
  }

  /** A chain that holds makes every equality in it hold, whatever the other
      conjuncts evaluate to. */
  lemma {:induction false} EqInChain(w: World, srcs: seq<Source>, rows: Joined, cs: seq<Expr>, i: nat)
    requires i < |cs| && IsEq(cs[i]) && Holds(w, srcs, rows, Chain(cs))
    ensures Holds(w, srcs, rows, cs[i])
    decreases |cs|
  {
    if |cs| > 1 {
      var init, last := cs[..|cs| - 1], cs[|cs| - 1];
      var a, b := Eval(w, srcs, rows, Chain(init)), Eval(w, srcs, rows, last);
      assert Both(a.value, b.value) == Bool(true);
      if i == |cs| - 1 {
        EqIsTruth(w, srcs, rows, last);
      } else {
        assert init[i] == cs[i];
        EqIsTruth(w, srcs, rows, Chain(init));
        EqInChain(w, srcs, rows, init, i);
      }
    }
  }

  lemma AndHolds(w: World, srcs: seq<Source>, rows: Joined, e: Expr)
    requires e.Bin? && e.op == And && Holds(w, srcs, rows, e)
    ensures Eval(w, srcs, rows, e.left).Done? && Eval(w, srcs, rows, e.right).Done?
    ensures IsTruth(Eval(w, srcs, rows, e.left).value) ==> Holds(w, srcs, rows, e.left)
    ensures IsTruth(Eval(w, srcs, rows, e.right).value) ==> Holds(w, srcs, rows, e.right)
  {
    assert Both(Eval(w, srcs, rows, e.left).value, Eval(w, srcs, rows, e.right).value) == Bool(true);
  }

  lemma {:induction false} EqInSplit(w: World, srcs: seq<Source>, rows: Joined, e: Expr, i: nat)
    requires i < |Split(e)| && IsEq(Split(e)[i]) && Holds(w, srcs, rows, e)
    ensures Holds(w, srcs, rows, Split(e)[i])
    decreases e
  {
    hide Eval;
    if e.Bin? && e.op == And {
      var l, r := Split(e.left), Split(e.right);
      AndHolds(w, srcs, rows, e);
      if i < |l| {
        assert Split(e)[i] == l[i];
        LoneOrTruth(w, srcs, rows, e.left, i);
        EqInSplit(w, srcs, rows, e.left, i);
      } else {
        assert Split(e)[i] == r[i - |l|];
        LoneOrTruth(w, srcs, rows, e.right, i - |l|);
        EqInSplit(w, srcs, rows, e.right, i - |l|);
      }
    }
  }

  lemma LoneOrTruth(w: World, srcs: seq<Source>, rows: Joined, e: Expr, i: nat)
    requires i < |Split(e)| && IsEq(Split(e)[i])
    ensures Eval(w, srcs, rows, e).Done? ==> IsTruth(Eval(w, srcs, rows, e).value)
  {
    EqIsTruth(w, srcs, rows, if e.Bin? && e.op == And then e else Split(e)[i]);
  }

  /** Whoever passes the predicate has every key that is pinned down. */
  ghost predicate Pins(w: World, cs: seq<Option<Expr>>, src: Source, pk: PrimaryKey, p: Pred, e: (Value, Row)) {
    Test(w, [src], [e.1], p) == Done(true) ==>
      forall i :: 0 <= i < |cs| && PinnedKey(w, cs[i], pk, src.alias).Some? ==>
        PinnedKey(w, cs[i], pk, src.alias).value == e.0
  }

  lemma CombinePins(w: World, cs: seq<Option<Expr>>, src: Source, pk: PrimaryKey, e: (Value, Row))
    requires pk.name in src.columns && KeyedEntry(src, pk, e)
    ensures Pins(w, cs, src, pk, Combine(cs), e)
  {
    if Test(w, [src], [e.1], Combine(cs)) == Done(true) {
      forall i | 0 <= i < |cs| && PinnedKey(w, cs[i], pk, src.alias).Some?
        ensures PinnedKey(w, cs[i], pk, src.alias).value == e.0
      {
        var es := seq(|cs|, i requires 0 <= i < |cs| => if cs[i].Some? then cs[i].value else Lit(Null));
        assert cs[i].Some? && cs != [None];
        assert es == seq(|cs|, i requires 0 <= i < |cs| => cs[i].value);
        EqInChain(w, [src], [e.1], es, i);
        PinnedMeans(w, src, pk, e, cs[i]);
      }
    }
  }

  lemma WherePins(w: World, filter: Option<Expr>, src: Source, pk: PrimaryKey, e: (Value, Row))
    requires pk.name in src.columns && KeyedEntry(src, pk, e)
    ensures Pins(w, SplitWhere(filter), src, pk, if filter.None? then Always else When(filter.value), e)
  {
    var cs := SplitWhere(filter);
    if filter.Some? && Holds(w, [src], [e.1], filter.value) {
      forall i | 0 <= i < |cs| && PinnedKey(w, cs[i], pk, src.alias).Some?
        ensures PinnedKey(w, cs[i], pk, src.alias).value == e.0
      {
        EqInSplit(w, [src], [e.1], filter.value, i);
        PinnedMeans(w, src, pk, e, cs[i]);
      }
    }
  }

  lemma {:induction false} PinnedFrom(w: World, cs: seq<Option<Expr>>, pk: PrimaryKey, alias: Name,
                                      n: nat) returns (i: nat)
    requires n < |PinnedKeys(w, cs, pk, alias)|
    ensures i < |cs| && PinnedKey(w, cs[i], pk, alias) == Some(PinnedKeys(w, cs, pk, alias)[n])
    decreases |cs|
  {
    hide PinnedKey;
    var k := PinnedKey(w, cs[0], pk, alias);
    if k.Some? && n == 0 {
      i := 0;
    } else {
      i := PinnedFrom(w, cs[1..], pk, alias, if k.Some? then n - 1 else n);
      i := i + 1;
    }
  }

  lemma {:induction false} NoneAccepted(w: World, src: Source, p: Pred, entries: seq<(Value, Row)>)
    requires Accepted(w, src, p, entries).Done?
    requires forall i :: 0 <= i < |entries| ==> Test(w, [src], [entries[i].1], p) != Done(true)
    ensures Accepted(w, src, p, entries) == Done([])
    decreases |entries|
  {
    if entries != [] {
      forall i | 0 <= i < |entries[1..]| ensures Test(w, [src], [entries[1..][i].1], p) != Done(true) {
        assert entries[1..][i] == entries[i + 1];
      }
      assert Test(w, [src], [entries[0].1], p) != Done(true);
      hide Test;
      NoneAccepted(w, src, p, entries[1..]);
      AppendedTwice([], [], Accepted(w, src, p, entries[1..]));
    }
  }

  lemma {:induction false} OneAccepted(w: World, src: Source, p: Pred, entries: seq<(Value, Row)>, key: Value)
    requires Accepted(w, src, p, entries).Done?
    requires forall i :: 0 <= i < |entries| && entries[i].0 != key ==> Test(w, [src], [entries[i].1], p) != Done(true)
    requires forall i, j :: 0 <= i < j < |entries| ==> entries[i].0 != entries[j].0
    ensures Accepted(w, src, p, Lookup(entries, key)) == Accepted(w, src, p, entries)
    decreases |entries|
  {
    hide Test;
    if entries != [] {
      var rest := entries[1..];
      if entries[0].0 == key {
        forall i | 0 <= i < |rest| ensures Test(w, [src], [rest[i].1], p) != Done(true) {
          assert rest[i] == entries[i + 1];
        }
        NoneAccepted(w, src, p, rest);
        assert [entries[0]][1..] == [];
      } else {
        assert entries[0].0 != key;
        OneAccepted(w, src, p, rest, key);
        AppendedTwice([], [], Accepted(w, src, p, rest));
      }
    }
  }

  /** If the full scan goes through, looking only at what the pinned keys allow
      accepts the same entries. */
  lemma CandidatesSuffice(w: World, cs: seq<Option<Expr>>, src: Source, t: Data, p: Pred)
    requires Keyed(src, t) && Accepted(w, src, p, t.entries).Done?
    requires t.pk.Some? ==> forall i :: 0 <= i < |t.entries| ==> Pins(w, cs, src, t.pk.value, p, t.entries[i])
    ensures Accepted(w, src, p, Candidates(w, cs, src, t)) == Accepted(w, src, p, t.entries)
  {
    hide Test, PinnedKey, KeyedEntry;
    if t.pk.Some? {
      var pk, entries := t.pk.value, t.entries;
      var keys := PinnedKeys(w, cs, pk, src.alias);
      if keys != [] {
        forall n, i | 0 <= n < |keys| && 0 <= i < |entries| && Test(w, [src], [entries[i].1], p) == Done(true)
          ensures keys[n] == entries[i].0
        {
          var at := PinnedFrom(w, cs, pk, src.alias, n);
          assert Pins(w, cs, src, pk, p, entries[i]);
        }
        if forall n :: 0 <= n < |keys| ==> PyEq(keys[n], keys[0]) {
          OneAccepted(w, src, p, entries, keys[0]);
        } else {
          var n :| 0 <= n < |keys| && !PyEq(keys[n], keys[0]);
          var here, first := keys[n], keys[0];
          assert here != first;
          forall i | 0 <= i < |entries| ensures Test(w, [src], [entries[i].1], p) != Done(true) {
            var key := entries[i].0;
            assert Test(w, [src], [entries[i].1], p) == Done(true) ==> here == key == first;
          }
          NoneAccepted(w, src, p, entries);
        }
      }
    }
  }

  /** The scan of a SELECT: the point lookup returns the rows of the full scan, for
      any conjuncts. */
  lemma IndexPathIsScan(w: World, s: ScanPlan, t: Data)
    requires Keyed(s.src, t)
    ensures var full := Accepted(w, s.src, Combine(s.pushed), t.entries);
      full.Done? ==> Scan(w, s, t) == Done(RowsOf(full.value))
  {
    if t.pk.Some? {
      forall i | 0 <= i < |t.entries| ensures Pins(w, s.pushed, s.src, t.pk.value, Combine(s.pushed), t.entries[i]) {
        CombinePins(w, s.pushed, s.src, t.pk.value, t.entries[i]);
      }
    }
    hide Accepted, Candidates, Pins, Combine, Keyed;
    if Accepted(w, s.src, Combine(s.pushed), t.entries).Done? {
      CandidatesSuffice(w, s.pushed, s.src, t, Combine(s.pushed));
    }
  }

  /** The keys UPDATE and DELETE set out to lock. */
  function WriteCandidates(w: World, src: Source, filter: Option<Expr>, t: Data): Outcome<seq<(Value, Row)>> {
    var p := if filter.None? then Always else When(filter.value);
    Accepted(w, src, p, if filter.None? then t.entries else Candidates(w, SplitWhere(filter), src, t))
  }

  /** The same for UPDATE and DELETE, whose WHERE is evaluated whole. */
  lemma WriteCandidatesAreScan(w: World, src: Source, filter: Option<Expr>, t: Data)
    requires Keyed(src, t)
    ensures var full := Accepted(w, src, if filter.None? then Always else When(filter.value), t.entries);
      full.Done? ==> WriteCandidates(w, src, filter, t) == full
  {
    var p := if filter.None? then Always else When(filter.value);
    if t.pk.Some? {
      forall i | 0 <= i < |t.entries| ensures Pins(w, SplitWhere(filter), src, t.pk.value, p, t.entries[i]) {
        WherePins(w, filter, src, t.pk.value, t.entries[i]);
      }
    }
    hide Accepted, Candidates, Pins, Keyed;
    if filter.Some? && Accepted(w, src, p, t.entries).Done? {
      CandidatesSuffice(w, SplitWhere(filter), src, t, p);
    }
  }

  /** With a key pinned down by the WHERE, UPDATE and DELETE evaluate it on one row at most,
      so that no other row can make them raise. */
  lemma WriteLooksAtOne(w: World, src: Source, filter: Expr, t: Data, i: nat) returns (found: seq<(Value, Row)>)
    requires t.pk.Some? && i < |Split(filter)|
    requires PinnedKey(w, Some(Split(filter)[i]), t.pk.value, src.alias).Some?
    ensures |found| <= 1 && forall e :: e in found ==> e in t.entries
    ensures WriteCandidates(w, src, Some(filter), t) == Accepted(w, src, When(filter), found)
  {
    var cs := SplitWhere(Some(filter));
    assert cs[i] == Some(Split(filter)[i]);
    found := Candidates(w, cs, src, t);
    LooksAtOne(w, cs, src, t, i);
  }

  // ---- nested loops ----

  function PredOf(e: Option<Expr>): Pred {
    match e case None => Always case Some(x) => When(x)
  }

  function TryMatches(w: World, srcs: seq<Source>, l: Joined, rows: seq<Row>, p: Pred): Outcome<seq<Joined>> {
    if rows == [] then Done([])
    else
      var ok, rest := Test(w, srcs, l + [rows[0]], p), TryMatches(w, srcs, l, rows[1..], p);
      if ok.Fail? then Fail else Appended(if ok.value then [l + [rows[0]]] else [], rest)
  }

  function Padded(ms: seq<Joined>, l: Joined, kind: Kind, width: nat): seq<Joined> {
    if ms == [] && kind == LeftOuter then [l + [Nulls(width)]] else ms
  }

  function TryJoin(w: World, srcs: seq<Source>, ls: seq<Joined>, rows: seq<Row>, p: Pred, kind: Kind,
                   width: nat): Outcome<seq<Joined>> {
    if ls == [] then Done([])
    else
      var first, rest := TryMatches(w, srcs, ls[0], rows, p), TryJoin(w, srcs, ls[1..], rows, p, kind, width);
      if first.Fail? then Fail else Appended(Padded(first.value, ls[0], kind, width), rest)
  }

  function TryJoins(w: World, srcs: seq<Source>, ls: seq<Joined>, joins: seq<JoinPlan>,
                    tables: seq<Data>): Outcome<seq<Joined>>
    requires |tables| == |joins|
    decreases |joins|
  {
    if joins == [] then Done(ls)
    else
      var j := joins[0];
      var srcs1 := srcs + [j.scan.src];
      var right := Scan(w, j.scan, tables[0]);
      if right.Fail? then Fail
      else
        var next := TryJoin(w, srcs1, ls, right.value, PredOf(j.pred), j.kind, |j.scan.src.columns|);
        if next.Fail? then Fail else TryJoins(w, srcs1, next.value, joins[1..], tables[1..])
  }

  function TryKeep(w: World, srcs: seq<Source>, p: Pred, js: seq<Joined>): Outcome<seq<Joined>> {
    if js == [] then Done([])
    else
      var ok, rest := Test(w, srcs, js[0], p), TryKeep(w, srcs, p, js[1..]);
      if ok.Fail? then Fail else Appended(if ok.value then [js[0]] else [], rest)
  }

  function SourcesOf(q: Select): seq<Source> {
    [q.base] + seq(|q.joins|, i requires 0 <= i < |q.joins| => q.joins[i].src)
  }

  /** The joined and filtered rows of a SELECT, before projection. */
  function SelectRows(w: World, q: Select, tables: seq<Data>): Outcome<seq<Joined>>
    requires |tables| == 1 + |q.joins|
  {
    var plan := PlanOf(q);
    var base := Scan(w, plan.base, tables[0]);
    if base.Fail? then Fail
    else
      var joined := TryJoins(w, [q.base], Singles(base.value), plan.joins, tables[1..]);
      if joined.Fail? then Fail else TryKeep(w, SourcesOf(q), Combine(plan.residual), joined.value)
  }

  /** Both inner loops of one join. */
  method JoinLoop(w: World, srcs: seq<Source>, ls: seq<Joined>, rows: seq<Row>, p: Pred, kind: Kind, width: nat)
    returns (out: Outcome<seq<Joined>>)
    ensures out == TryJoin(w, srcs, ls, rows, p, kind, width)
  {
    var joined: seq<Joined> := [];
    var i := 0;
    assert ls[0..] == ls;
    AppendedTwice([], [], TryJoin(w, srcs, ls, rows, p, kind, width));
    hide TryMatches, Nulls, Appended;
    while i < |ls|
      invariant 0 <= i <= |ls|
      invariant TryJoin(w, srcs, ls, rows, p, kind, width)
           == Appended(joined, TryJoin(w, srcs, ls[i..], rows, p, kind, width))
    {
      assert ls[i..][0] == ls[i] && ls[i..][1..] == ls[i + 1..];
      var ms := MatchLoop(w, srcs, ls[i], rows, p);
      if ms.Fail? {
        AppendFail(joined);
        return Fail;
      }
      AppendedTwice(joined, Padded(ms.value, ls[i], kind, width), TryJoin(w, srcs, ls[i + 1..], rows, p, kind, width));
      ghost var before := joined;
      joined := joined + ms.value;
      if ms.value == [] && kind == LeftOuter {
        joined := joined + [ls[i] + [Nulls(width)]];
      }
      assert joined == before + Padded(ms.value, ls[i], kind, width);
      i := i + 1;
    }
    assert ls[i..] == [];
    AppendedTwice(joined, [], Done([]));
    out := Done(joined);
  }

  method MatchLoop(w: World, srcs: seq<Source>, l: Joined, rows: seq<Row>, p: Pred) returns (out: Outcome<seq<Joined>>)
    ensures out == TryMatches(w, srcs, l, rows, p)
  {
    var ms: seq<Joined> := [];
    var i := 0;
    assert rows[0..] == rows;
    AppendedTwice([], [], TryMatches(w, srcs, l, rows, p));
    hide Test, Appended;
    while i < |rows|
      invariant 0 <= i <= |rows|
      invariant TryMatches(w, srcs, l, rows, p) == Appended(ms, TryMatches(w, srcs, l, rows[i..], p))
    {
      assert rows[i..][0] == rows[i] && rows[i..][1..] == rows[i + 1..];
      var ok := Test(w, srcs, l + [rows[i]], p);
      if ok.Fail? {
        AppendFail(ms);
        return Fail;
      }
      AppendedTwice(ms, if ok.value then [l + [rows[i]]] else [], TryMatches(w, srcs, l, rows[i + 1..], p));
      if ok.value {
        ms := ms + [l + [rows[i]]];
      }
      assert ok.value || ms + [] == ms;
      i := i + 1;
    }
    assert rows[i..] == [];
    AppendedTwice(ms, [], Done([]));
    out := Done(ms);
  }

  method FilterLoop(w: World, srcs: seq<Source>, p: Pred, js: seq<Joined>) returns (out: Outcome<seq<Joined>>)
    ensures out == TryKeep(w, srcs, p, js)
  {
    var kept: seq<Joined> := [];
    var i := 0;
    assert js[0..] == js;
    AppendedTwice([], [], TryKeep(w, srcs, p, js));
    hide Test, Appended;
    while i < |js|
      invariant 0 <= i <= |js|
      invariant TryKeep(w, srcs, p, js) == Appended(kept, TryKeep(w, srcs, p, js[i..]))
    {
      assert js[i..][0] == js[i] && js[i..][1..] == js[i + 1..];
      var ok := Test(w, srcs, js[i], p);
      if ok.Fail? {
        AppendFail(kept);
        return Fail;
      }
      AppendedTwice(kept, if ok.value then [js[i]] else [], TryKeep(w, srcs, p, js[i + 1..]));
      if ok.value {
        kept := kept + [js[i]];
      }
      assert ok.value || kept + [] == kept;
      i := i + 1;
    }
    assert js[i..] == [];
    AppendedTwice(kept, [], Done([]));
    out := Done(kept);
  }

  /** `_nested_loop_join` and the residual filter of `_select_from`. */
  method RunSelect(w: World, q: Select, tables: seq<Data>) returns (out: Outcome<seq<Joined>>)
    requires |tables| == 1 + |q.joins|
    ensures out == SelectRows(w, q, tables)
  {
    var plan := PlanSelect(q);
    hide PlanOf, Scan, TryJoin, TryKeep;
    var base := ScanTable(w, plan.base, tables[0]);
    if base.Fail? {
      return Fail;
    }
    var ls, srcs := Singles(base.value), [q.base];
    PlanJoins(q);
    ghost var whole := TryJoins(w, srcs, ls, plan.joins, tables[1..]);
    var i := 0;
    assert plan.joins[0..] == plan.joins && tables[1..][0..] == tables[1..];
    while i < |plan.joins|
      invariant 0 <= i <= |plan.joins| == |tables| - 1
      invariant whole == TryJoins(w, srcs, ls, plan.joins[i..], tables[1..][i..])
    {
      var j := plan.joins[i];
      assert plan.joins[i..][0] == j && tables[1..][i..][0] == tables[i + 1];
      assert plan.joins[i..][1..] == plan.joins[i + 1..] && tables[1..][i..][1..] == tables[1..][i + 1..];
      var right := ScanTable(w, j.scan, tables[i + 1]);
      if right.Fail? {
        return Fail;
      }
      srcs := srcs + [j.scan.src];
      var next := JoinLoop(w, srcs, ls, right.value, PredOf(j.pred), j.kind, |j.scan.src.columns|);
      if next.Fail? {
        return Fail;
      }
      ls := next.value;
      i := i + 1;
    }
    assert plan.joins[i..] == [];
    assert whole == Done(ls);
    out := FilterLoop(w, SourcesOf(q), Combine(plan.residual), ls);
  }

  lemma PlanJoins(q: Select)
    ensures |PlanOf(q).joins| == |q.joins|
  {
  }
}
