/** Predicate pushdown: `plan_select` of minidb/engine/planner.py, and why moving
    conjuncts into the scans leaves the result of the joins alone.

    Here a conjunct is kept where it holds, that is, where it evaluates to TRUE;
    what happens when evaluation raises is a matter of the Executor module. */
module Planner {
  import opened Basics
  import opened Expressions

  datatype Kind = Inner | LeftOuter

  type Joined = seq<Row>

  /** One join as it is carried out: the rows of its right table, the conjuncts
      applied when that table is scanned, and those applied to each pair. */
  datatype Stage = Stage(kind: Kind, src: Source, rows: seq<Row>, pushed: seq<Expr>, on: seq<Expr>)

  // ---- which conjuncts belong to one table ----

  predicate ContainsQuery(e: Expr)
    decreases e
  {
    match e
    case Query(_) => true
    case Un(_, x) => ContainsQuery(x)
    case Bin(_, l, r) => ContainsQuery(l) || ContainsQuery(r)
    case Func(_, args, _, _) => exists i :: 0 <= i < |args| && ContainsQuery(args[i])
    case _ => false
  }

  predicate RefersOnly(e: Expr, src: Source)
    decreases e
  {
    match e
    case Col(name, table) => (table.None? || table.value == src.alias) && name in src.columns
    case Un(_, x) => RefersOnly(x, src)
    case Bin(_, l, r) => RefersOnly(l, src) && RefersOnly(r, src)
    case Func(_, args, _, _) => forall i :: 0 <= i < |args| ==> RefersOnly(args[i], src)
    case _ => true
  }

  /** `_conjunct_is_local`. */
  predicate Local(e: Expr, src: Source) {
    !ContainsQuery(e) && RefersOnly(e, src)
  }

  /** `x` is `e` or stands somewhere in it. */
  ghost predicate Inside(x: Expr, e: Expr)
    decreases e
  {
    x == e ||
    match e
    case Un(_, y) => Inside(x, y)
    case Bin(_, l, r) => Inside(x, l) || Inside(x, r)
    case Func(_, args, _, _) => exists i :: 0 <= i < |args| && Inside(x, args[i])
    case _ => false
  }

  /** A conjunct is local to a table exactly if there is no subquery in it and each of its
      names is a column of the table, bare or under its alias. */
  lemma {:induction false} LocalExactly(e: Expr, src: Source)
    ensures ContainsQuery(e) <==> exists id :: Inside(Query(id), e)
    ensures RefersOnly(e, src) <==> forall name, table :: Inside(Col(name, table), e) ==>
                                      name in src.columns && (table == None || table == Some(src.alias))
    decreases e
  {
    match e
    case Un(_, x) => LocalExactly(x, src);
    case Bin(_, l, r) =>
      LocalExactly(l, src);
      LocalExactly(r, src);
    case Func(_, args, _, _) =>
      forall i | 0 <= i < |args|
        ensures ContainsQuery(args[i]) <==> exists id :: Inside(Query(id), args[i])
        ensures RefersOnly(args[i], src) <==> forall name, table :: Inside(Col(name, table), args[i]) ==>
                                                name in src.columns && (table == None || table == Some(src.alias))
      {
        LocalExactly(args[i], src);
      }
    case _ =>
  }

  /** Each bare column name in `e` belongs to one of the tables at most. */
  predicate Clear(srcs: seq<Source>, e: Expr)
    decreases e
  {
    match e
    case Col(name, table) =>
      table.None? ==> forall i, j :: 0 <= i < j < |srcs| ==> !(name in srcs[i].columns && name in srcs[j].columns)
    case Un(_, x) => Clear(srcs, x)
    case Bin(_, l, r) => Clear(srcs, l) && Clear(srcs, r)
    case Func(_, args, _, _) => forall i :: 0 <= i < |args| ==> Clear(srcs, args[i])
    case _ => true
  }

  predicate ClearAll(srcs: seq<Source>, cs: seq<Expr>) {
    forall i :: 0 <= i < |cs| ==> Clear(srcs, cs[i])
  }

  predicate Distinct(srcs: seq<Source>) {
    forall i, j :: 0 <= i < j < |srcs| ==> srcs[i].alias != srcs[j].alias
  }

  /** A local conjunct has the same value in the scan of its table, which binds
      that table alone, as in any join that contains it. */
  lemma {:induction false} LocalValue(w: World, srcs: seq<Source>, rows: Joined, k: nat, e: Expr)
    requires k < |srcs| == |rows| && Distinct(srcs) && Clear(srcs, e) && Local(e, srcs[k])
    ensures Eval(w, srcs, rows, e) == Eval(w, [srcs[k]], [rows[k]], e)
    decreases e
  {
    match e
    case Col(name, table) => LocalName(srcs, rows, k, name, table);
    case Un(_, x) => LocalValue(w, srcs, rows, k, x);
    case Bin(op, l, r) =>
      LocalValue(w, srcs, rows, k, l);
      LocalValue(w, srcs, rows, k, r);
      if op == Between && r.Bin? {
        LocalValue(w, srcs, rows, k, r.left);
        LocalValue(w, srcs, rows, k, r.right);
      }
    case Func(_, args, _, _) => if args != [] { LocalValue(w, srcs, rows, k, args[0]); }
    case _ =>
  }

  lemma LocalName(srcs: seq<Source>, rows: Joined, k: nat, name: Name, table: Option<Name>)
    requires k < |srcs| == |rows| && Distinct(srcs)
    requires table.None? ==> forall i, j :: 0 <= i < j < |srcs| ==>
               !(name in srcs[i].columns && name in srcs[j].columns)
    requires (table.None? || table.value == srcs[k].alias) && name in srcs[k].columns
    ensures Resolve(srcs, rows, name, table) == Resolve([srcs[k]], [rows[k]], name, table)
  {
    var one, row := [srcs[k]], [rows[k]];
    assert one[0] == srcs[k] && row[0] == rows[k];
    if table.Some? {
      assert AliasAt(srcs, table.value) == Some(k);
      assert AliasAt(one, table.value) == Some(0);
    } else {
      assert ColumnAt(srcs, name) == Some(k);
      assert ColumnAt(one, name) == Some(0);
    }
  }

  // ---- joining and filtering ----

  function Nulls(width: nat): Row {
    seq(width, _ => Null)
  }

  /** The rows of a scan that pass its conjuncts. */
  function KeepRows(w: World, src: Source, cs: seq<Expr>, rows: seq<Row>): seq<Row> {
    if rows == [] then []
    else
      var rest := KeepRows(w, src, cs, rows[1..]);
      if All(w, [src], [rows[0]], cs) then [rows[0]] + rest else rest
  }

  /** The joined rows whose component `k` passes the conjuncts of its table. */
  function KeepAt(w: World, src: Source, k: nat, cs: seq<Expr>, js: seq<Joined>): seq<Joined> {
    if js == [] then []
    else
      var rest := KeepAt(w, src, k, cs, js[1..]);
      if k < |js[0]| && All(w, [src], [js[0][k]], cs) then [js[0]] + rest else rest
  }

  /** The joined rows that pass conjuncts over all their tables. */
  function Keep(w: World, srcs: seq<Source>, cs: seq<Expr>, js: seq<Joined>): seq<Joined> {
    if js == [] then []
    else
      var rest := Keep(w, srcs, cs, js[1..]);
      if All(w, srcs, js[0], cs) then [js[0]] + rest else rest
  }

  function Matches(w: World, srcs: seq<Source>, l: Joined, rows: seq<Row>, on: seq<Expr>): seq<Joined> {
    if rows == [] then []
    else
      var rest := Matches(w, srcs, l, rows[1..], on);
      if All(w, srcs, l + [rows[0]], on) then [l + [rows[0]]] + rest else rest
  }

  /** The joined rows one left row gives: its matches, or itself padded with NULLs
      in a LEFT JOIN without any (SQL-92, section 7.5). */
  function JoinRow(w: World, srcs: seq<Source>, l: Joined, rows: seq<Row>, on: seq<Expr>, kind: Kind,
                   width: nat): seq<Joined> {
    var ms := Matches(w, srcs, l, rows, on);
    if ms == [] && kind == LeftOuter then [l + [Nulls(width)]] else ms
  }

  function Join(w: World, srcs: seq<Source>, ls: seq<Joined>, rows: seq<Row>, on: seq<Expr>, kind: Kind,
                width: nat): seq<Joined> {
    if ls == [] then []
    else JoinRow(w, srcs, ls[0], rows, on, kind, width) + Join(w, srcs, ls[1..], rows, on, kind, width)
  }

  /** All joins of a query, from the rows `ls` over the tables `srcs` on. */
  function Pipe(w: World, srcs: seq<Source>, ls: seq<Joined>, stages: seq<Stage>): seq<Joined>
    decreases |stages|
  {
    if stages == [] then ls
    else Pipe(w, srcs + [stages[0].src], JoinStage(w, srcs, ls, stages[0]), stages[1..])
  }

  function JoinStage(w: World, srcs: seq<Source>, ls: seq<Joined>, s: Stage): seq<Joined> {
    Join(w, srcs + [s.src], ls, KeepRows(w, s.src, s.pushed, s.rows), s.on, s.kind, |s.src.columns|)
  }

  function Singles(rows: seq<Row>): seq<Joined> {
    if rows == [] then [] else [[rows[0]]] + Singles(rows[1..])
  }

  predicate Wide(ls: seq<Joined>, n: nat) {
    forall i :: 0 <= i < |ls| ==> |ls[i]| == n
  }

  function AllSources(srcs: seq<Source>, stages: seq<Stage>): seq<Source>
    decreases |stages|
  {
    if stages == [] then srcs else AllSources(srcs + [stages[0].src], stages[1..])
  }

  // ---- filters compose, and pass through joins ----

  lemma {:induction false} KeepRowsTwice(w: World, src: Source, cs: seq<Expr>, ds: seq<Expr>, rows: seq<Row>)
    ensures KeepRows(w, src, cs + ds, rows) == KeepRows(w, src, ds, KeepRows(w, src, cs, rows))
  {
    if rows != [] {
      AllConcat(w, [src], [rows[0]], cs, ds);
      KeepRowsTwice(w, src, cs, ds, rows[1..]);
      var rest := KeepRows(w, src, cs, rows[1..]);
      assert ([rows[0]] + rest)[1..] == rest;
    }
  }

  lemma {:induction false} KeepAtTwice(w: World, src: Source, k: nat, cs: seq<Expr>, ds: seq<Expr>, js: seq<Joined>)
    ensures KeepAt(w, src, k, cs + ds, js) == KeepAt(w, src, k, ds, KeepAt(w, src, k, cs, js))
    ensures KeepAt(w, src, k, cs + ds, js) == KeepAt(w, src, k, cs, KeepAt(w, src, k, ds, js))
  {
    if js != [] {
      if k < |js[0]| { AllConcat(w, [src], [js[0][k]], cs, ds); }
      KeepAtTwice(w, src, k, cs, ds, js[1..]);
      var rest, rest' := KeepAt(w, src, k, cs, js[1..]), KeepAt(w, src, k, ds, js[1..]);
      assert ([js[0]] + rest)[1..] == rest && ([js[0]] + rest')[1..] == rest';
    }
  }

  lemma {:induction false} KeepAtConcat(w: World, src: Source, k: nat, cs: seq<Expr>, js: seq<Joined>, ks: seq<Joined>)
    ensures KeepAt(w, src, k, cs, js + ks) == KeepAt(w, src, k, cs, js) + KeepAt(w, src, k, cs, ks)
    decreases |js|
  {
    if js == [] {
      assert js + ks == ks;
    } else {
      assert (js + ks)[0] == js[0] && (js + ks)[1..] == js[1..] + ks;
      KeepAtConcat(w, src, k, cs, js[1..], ks);
    }
  }

  lemma {:induction false} KeepAtSingles(w: World, src: Source, cs: seq<Expr>, rows: seq<Row>)
    ensures KeepAt(w, src, 0, cs, Singles(rows)) == Singles(KeepRows(w, src, cs, rows))
  {
    if rows != [] {
      KeepAtSingles(w, src, cs, rows[1..]);
      assert Singles(rows)[1..] == Singles(rows[1..]);
      var rest := KeepRows(w, src, cs, rows[1..]);
      assert ([rows[0]] + rest)[1..] == rest;
    }
  }

  lemma {:induction false} MatchesWide(w: World, srcs: seq<Source>, l: Joined, rows: seq<Row>, on: seq<Expr>)
    ensures Wide(Matches(w, srcs, l, rows, on), |l| + 1)
  {
    if rows != [] { MatchesWide(w, srcs, l, rows[1..], on); }
  }

  lemma {:induction false} JoinWide(w: World, srcs: seq<Source>, ls: seq<Joined>, rows: seq<Row>, on: seq<Expr>,
                                    kind: Kind, width: nat, n: nat)
    requires Wide(ls, n)
    ensures Wide(Join(w, srcs, ls, rows, on, kind, width), n + 1)
    decreases |ls|
  {
    if ls != [] {
      MatchesWide(w, srcs, ls[0], rows, on);
      assert Wide(ls[1..], n);
      JoinWide(w, srcs, ls[1..], rows, on, kind, width, n);
    }
  }

  lemma {:induction false} SinglesWide(rows: seq<Row>)
    ensures Wide(Singles(rows), 1)
  {
    if rows != [] { SinglesWide(rows[1..]); }
  }

  /** What a left row has in component `k`, all the rows it gives have. */
  lemma {:induction false} KeepAtMatches(w: World, src: Source, k: nat, cs: seq<Expr>, srcs: seq<Source>, l: Joined,
                                         rows: seq<Row>, on: seq<Expr>)
    requires k < |l|
    ensures KeepAt(w, src, k, cs, Matches(w, srcs, l, rows, on))
         == if All(w, [src], [l[k]], cs) then Matches(w, srcs, l, rows, on) else []
  {
    if rows != [] {
      KeepAtMatches(w, src, k, cs, srcs, l, rows[1..], on);
      var rest := Matches(w, srcs, l, rows[1..], on);
      assert (l + [rows[0]])[k] == l[k];
      assert ([l + [rows[0]]] + rest)[1..] == rest;
    }
  }

  /** A filter on a table already joined commutes with further joins. */
  lemma {:induction false} KeepAtJoin(w: World, src: Source, k: nat, cs: seq<Expr>,
                                      srcs: seq<Source>, ls: seq<Joined>, rows: seq<Row>, on: seq<Expr>, kind: Kind,
                                      width: nat, n: nat)
    requires Wide(ls, n) && k < n
    ensures KeepAt(w, src, k, cs, Join(w, srcs, ls, rows, on, kind, width))
         == Join(w, srcs, KeepAt(w, src, k, cs, ls), rows, on, kind, width)
    decreases |ls|
  {
    if ls != [] {
      var l := ls[0];
      var first := JoinRow(w, srcs, l, rows, on, kind, width);
      KeepAtMatches(w, src, k, cs, srcs, l, rows, on);
      if Matches(w, srcs, l, rows, on) == [] && kind == LeftOuter {
        assert first[0][k] == l[k] && first[1..] == [];
      }
      assert KeepAt(w, src, k, cs, first) == if All(w, [src], [l[k]], cs) then first else [];
      assert Wide(ls[1..], n);
      hide Matches, All;
      KeepAtJoin(w, src, k, cs, srcs, ls[1..], rows, on, kind, width, n);
      KeepAtConcat(w, src, k, cs, first, Join(w, srcs, ls[1..], rows, on, kind, width));
      var rest := KeepAt(w, src, k, cs, ls[1..]);
      assert ([l] + rest)[1..] == rest;
    }
  }

  lemma {:induction false} KeepAtPipe(w: World, src: Source, k: nat, cs: seq<Expr>, srcs: seq<Source>,
                                      ls: seq<Joined>, stages: seq<Stage>)
    requires Wide(ls, |srcs|) && k < |srcs|
    ensures KeepAt(w, src, k, cs, Pipe(w, srcs, ls, stages)) == Pipe(w, srcs, KeepAt(w, src, k, cs, ls), stages)
    decreases |stages|
  {
    if stages != [] {
      var s := stages[0];
      var rows := KeepRows(w, s.src, s.pushed, s.rows);
      KeepAtJoin(w, src, k, cs, srcs + [s.src], ls, rows, s.on, s.kind, |s.src.columns|, |srcs|);
      JoinWide(w, srcs + [s.src], ls, rows, s.on, s.kind, |s.src.columns|, |srcs|);
      KeepAtPipe(w, src, k, cs, srcs + [s.src], JoinStage(w, srcs, ls, s), stages[1..]);
    }
  }

  /** In an INNER JOIN, filtering by the right component is filtering the right
      table first. */
  lemma {:induction false} KeepLastMatches(w: World, src: Source, cs: seq<Expr>, srcs: seq<Source>, l: Joined,
                                           rows: seq<Row>, on: seq<Expr>)
    ensures KeepAt(w, src, |l|, cs, Matches(w, srcs, l, rows, on))
         == Matches(w, srcs, l, KeepRows(w, src, cs, rows), on)
  {
    if rows != [] {
      KeepLastMatches(w, src, cs, srcs, l, rows[1..], on);
      var m := l + [rows[0]];
      var rest, kept := Matches(w, srcs, l, rows[1..], on), KeepRows(w, src, cs, rows[1..]);
      assert m[|l|] == rows[0];
      assert ([m] + rest)[1..] == rest && ([rows[0]] + kept)[1..] == kept;
    }
  }

  lemma {:induction false} KeepLastJoin(w: World, src: Source, cs: seq<Expr>, srcs: seq<Source>, ls: seq<Joined>,
                                        rows: seq<Row>, on: seq<Expr>, width: nat, n: nat)
    requires Wide(ls, n)
    ensures KeepAt(w, src, n, cs, Join(w, srcs, ls, rows, on, Inner, width))
         == Join(w, srcs, ls, KeepRows(w, src, cs, rows), on, Inner, width)
    decreases |ls|
  {
    if ls != [] {
      KeepLastMatches(w, src, cs, srcs, ls[0], rows, on);
      assert Wide(ls[1..], n);
      KeepLastJoin(w, src, cs, srcs, ls[1..], rows, on, width, n);
      KeepAtConcat(w, src, n, cs, Matches(w, srcs, ls[0], rows, on), Join(w, srcs, ls[1..], rows, on, Inner, width));
    }
  }

  // ---- the conjuncts of ON ----

  datatype Side = RightSide | BaseSide | BothSides

  /** Where an ON conjunct goes: the right table, for an INNER JOIN also the base
      table, otherwise it stays with the join. */
  function SideOf(c: Expr, kind: Kind, src: Source, base: Source): Side {
    if Local(c, src) then RightSide
    else if kind == Inner && Local(c, base) then BaseSide
    else BothSides
  }

  function OnPart(on: seq<Expr>, kind: Kind, src: Source, base: Source, side: Side): seq<Expr> {
    if on == [] then []
    else
      var rest := OnPart(on[1..], kind, src, base, side);
      if SideOf(on[0], kind, src, base) == side then [on[0]] + rest else rest
  }

  lemma AllCons(w: World, srcs: seq<Source>, rows: Joined, c: Expr, cs: seq<Expr>)
    ensures All(w, srcs, rows, [c] + cs) <==> Holds(w, srcs, rows, c) && All(w, srcs, rows, cs)
  {
    AllConcat(w, srcs, rows, [c], cs);
    assert All(w, srcs, rows, [c]) <==> Holds(w, srcs, rows, [c][0]);
  }

  lemma {:induction false} OnSplits(w: World, srcs: seq<Source>, rows: Joined, on: seq<Expr>, kind: Kind, src: Source,
                                    base: Source)
    requires |srcs| == |rows| > 1 && Distinct(srcs) && ClearAll(srcs, on)
    requires srcs[0] == base && srcs[|srcs| - 1] == src
    ensures All(w, srcs, rows, on)
       <==> && All(w, srcs, rows, OnPart(on, kind, src, base, BothSides))
            && All(w, [src], [rows[|rows| - 1]], OnPart(on, kind, src, base, RightSide))
            && All(w, [base], [rows[0]], OnPart(on, kind, src, base, BaseSide))
    decreases |on|
  {
    if on != [] {
      var c, rest, last := on[0], on[1..], rows[|rows| - 1];
      assert on == [c] + rest;
      assert ClearAll(srcs, rest);
      OnSplits(w, srcs, rows, rest, kind, src, base);
      AllCons(w, srcs, rows, c, rest);
      AllCons(w, srcs, rows, c, OnPart(rest, kind, src, base, BothSides));
      AllCons(w, [src], [last], c, OnPart(rest, kind, src, base, RightSide));
      AllCons(w, [base], [rows[0]], c, OnPart(rest, kind, src, base, BaseSide));
      hide Eval, Local, All, Clear, Distinct;
      if Local(c, src) {
        LocalValue(w, srcs, rows, |srcs| - 1, c);
      } else if kind == Inner && Local(c, base) {
        LocalValue(w, srcs, rows, 0, c);
      }
    }
  }

  lemma {:induction false} MatchesSplit(w: World, srcs: seq<Source>, l: Joined, rows: seq<Row>, on: seq<Expr>,
                                        kind: Kind, src: Source, base: Source)
    requires |srcs| == |l| + 1 > 1 && Distinct(srcs) && ClearAll(srcs, on)
    requires srcs[0] == base && srcs[|srcs| - 1] == src
    ensures Matches(w, srcs, l, rows, on) ==
              if All(w, [base], [l[0]], OnPart(on, kind, src, base, BaseSide))
              then Matches(w, srcs, l, KeepRows(w, src, OnPart(on, kind, src, base, RightSide), rows),
                           OnPart(on, kind, src, base, BothSides))
              else []
    decreases |rows|
  {
    if rows != [] {
      var r := rows[0];
      MatchesSplit(w, srcs, l, rows[1..], on, kind, src, base);
      OnSplits(w, srcs, l + [r], on, kind, src, base);
      assert (l + [r])[|l|] == r && (l + [r])[0] == l[0];
      var kept := KeepRows(w, src, OnPart(on, kind, src, base, RightSide), rows[1..]);
      assert ([r] + kept)[1..] == kept;
      hide All, OnPart, Distinct, ClearAll;
    }
  }

  lemma {:induction false} NoBasePart(on: seq<Expr>, src: Source, base: Source)
    ensures OnPart(on, LeftOuter, src, base, BaseSide) == []
  {
    if on != [] { NoBasePart(on[1..], src, base); }
  }

  /** One join: the local ON conjuncts may be applied before it. */
  lemma {:induction false} JoinSplit(w: World, srcs: seq<Source>, ls: seq<Joined>, rows: seq<Row>, on: seq<Expr>,
                                     kind: Kind, width: nat,
                                     src: Source, base: Source)
    requires |srcs| > 1 && Wide(ls, |srcs| - 1) && Distinct(srcs) && ClearAll(srcs, on)
    requires srcs[0] == base && srcs[|srcs| - 1] == src
    ensures Join(w, srcs, ls, rows, on, kind, width)
         == Join(w, srcs, KeepAt(w, base, 0, OnPart(on, kind, src, base, BaseSide), ls),
                 KeepRows(w, src, OnPart(on, kind, src, base, RightSide), rows),
                 OnPart(on, kind, src, base, BothSides), kind, width)
    decreases |ls|
  {
    if ls != [] {
      var l := ls[0];
      assert Wide(ls[1..], |srcs| - 1);
      JoinSplit(w, srcs, ls[1..], rows, on, kind, width, src, base);
      MatchesSplit(w, srcs, l, rows, on, kind, src, base);
      NoBasePart(on, src, base);
      var kept := KeepAt(w, base, 0, OnPart(on, kind, src, base, BaseSide), ls[1..]);
      assert ([l] + kept)[1..] == kept;
      hide OnPart, Distinct, ClearAll, Matches, KeepRows;
    }
  }

  /** The conjuncts of all ON clauses that go to the base table, join by join. */
  function BaseParts(base: Source, stages: seq<Stage>): seq<Expr>
    decreases |stages|
  {
    if stages == [] then []
    else OnPart(stages[0].on, stages[0].kind, stages[0].src, base, BaseSide) + BaseParts(base, stages[1..])
  }

  /** A stage with its local ON conjuncts moved to the right scan and to the base. */
  function Localised(base: Source, s: Stage): Stage {
    s.(pushed := s.pushed + OnPart(s.on, s.kind, s.src, base, RightSide),
       on := OnPart(s.on, s.kind, s.src, base, BothSides))
  }

  function LocalisedAll(base: Source, stages: seq<Stage>): seq<Stage>
    decreases |stages|
  {
    if stages == [] then [] else [Localised(base, stages[0])] + LocalisedAll(base, stages[1..])
  }

  /** Aliases are distinct and every ON conjunct is clear about its columns. */
  predicate Ready(srcs: seq<Source>, stages: seq<Stage>)
    decreases |stages|
  {
    Distinct(srcs) &&
    (stages != [] ==> ClearAll(srcs + [stages[0].src], stages[0].on) && Ready(srcs + [stages[0].src], stages[1..]))
  }

  lemma StageSplit(w: World, srcs: seq<Source>, ls: seq<Joined>, s: Stage)
    requires srcs != [] && Wide(ls, |srcs|) && Distinct(srcs + [s.src]) && ClearAll(srcs + [s.src], s.on)
    ensures JoinStage(w, srcs, ls, s) == JoinStage(w, srcs,
              KeepAt(w, srcs[0], 0, OnPart(s.on, s.kind, s.src, srcs[0], BaseSide), ls), Localised(srcs[0], s))
  {
    var rows := KeepRows(w, s.src, s.pushed, s.rows);
    assert (srcs + [s.src])[0] == srcs[0];
    JoinSplit(w, srcs + [s.src], ls, rows, s.on, s.kind, |s.src.columns|, s.src, srcs[0]);
    KeepRowsTwice(w, s.src, s.pushed, OnPart(s.on, s.kind, s.src, srcs[0], RightSide), s.rows);
    hide OnPart, Join, KeepRows, KeepAt, Distinct, ClearAll;
  }

  lemma {:induction false} KeepAtWide(w: World, src: Source, k: nat, cs: seq<Expr>, js: seq<Joined>, n: nat)
    requires Wide(js, n)
    ensures Wide(KeepAt(w, src, k, cs, js), n)
  {
    if js != [] {
      assert Wide(js[1..], n);
      KeepAtWide(w, src, k, cs, js[1..], n);
    }
  }

  /** Moving every local ON conjunct of every join changes nothing. */
  lemma {:induction false} MoveOn(w: World, srcs: seq<Source>, ls: seq<Joined>, stages: seq<Stage>)
    requires srcs != [] && Wide(ls, |srcs|) && Ready(srcs, stages)
    ensures Pipe(w, srcs, ls, stages)
         == Pipe(w, srcs, KeepAt(w, srcs[0], 0, BaseParts(srcs[0], stages), ls), LocalisedAll(srcs[0], stages))
    decreases |stages|
  {
    var base := srcs[0];
    if stages == [] {
      KeepAll(w, base, 0, ls);
    } else {
      var s, rest := stages[0], stages[1..];
      var srcs1 := srcs + [s.src];
      var mine, others := OnPart(s.on, s.kind, s.src, base, BaseSide), BaseParts(base, rest);
      var first := KeepAt(w, base, 0, mine, ls);
      var l1 := JoinStage(w, srcs, ls, s);
      JoinWide(w, srcs1, ls, KeepRows(w, s.src, s.pushed, s.rows), s.on, s.kind, |s.src.columns|, |srcs|);
      assert srcs1[0] == base && Distinct(srcs1);
      StageSplit(w, srcs, ls, s);
      MoveOn(w, srcs1, l1, rest);
      KeepAtWide(w, base, 0, mine, ls, |srcs|);
      var t := Localised(base, s);
      KeepAtJoin(w, base, 0, others, srcs1, first, KeepRows(w, t.src, t.pushed, t.rows), t.on, t.kind,
                 |t.src.columns|, |srcs|);
      KeepAtTwice(w, base, 0, mine, others, ls);
      assert LocalisedAll(base, stages)[0] == t && LocalisedAll(base, stages)[1..] == LocalisedAll(base, rest);
      hide Join, KeepAt, KeepRows, OnPart, Wide, Ready, Distinct, Localised;
    }
  }

  lemma {:induction false} KeepAll(w: World, src: Source, k: nat, js: seq<Joined>)
    requires forall i :: 0 <= i < |js| ==> k < |js[i]|
    ensures KeepAt(w, src, k, [], js) == js
  {
    if js != [] { KeepAll(w, src, k, js[1..]); }
  }

  // ---- the conjuncts of WHERE ----

  /** The scan a WHERE conjunct is pushed into: the first one it is local to, the
      right tables of LEFT JOINs left out. */
  function PlaceOf(c: Expr, base: Source, stages: seq<Stage>): Option<nat> {
    if Local(c, base) then Some(0) else PlaceAmong(c, stages, 0)
  }

  function PlaceAmong(c: Expr, stages: seq<Stage>, i: nat): (o: Option<nat>)
    requires i <= |stages|
    ensures o.Some? ==>
              i < o.value <= |stages| && stages[o.value - 1].kind == Inner && Local(c, stages[o.value - 1].src)
    decreases |stages| - i
  {
    if i == |stages| then None
    else if stages[i].kind == Inner && Local(c, stages[i].src) then Some(i + 1)
    else PlaceAmong(c, stages, i + 1)
  }

  function WherePart(cs: seq<Expr>, base: Source, stages: seq<Stage>, at: Option<nat>): seq<Expr> {
    if cs == [] then []
    else
      var rest := WherePart(cs[1..], base, stages, at);
      if PlaceOf(cs[0], base, stages) == at then [cs[0]] + rest else rest
  }

  function WhereParts(cs: seq<Expr>, base: Source, stages: seq<Stage>): seq<seq<Expr>> {
    seq(|stages|, i requires 0 <= i < |stages| => WherePart(cs, base, stages, Some(i + 1)))
  }

  function WithParts(stages: seq<Stage>, parts: seq<seq<Expr>>): seq<Stage>
    requires |parts| == |stages|
  {
    seq(|stages|, i requires 0 <= i < |stages| => stages[i].(pushed := stages[i].pushed + parts[i]))
  }

  predicate PassesTail(w: World, n: nat, stages: seq<Stage>, parts: seq<seq<Expr>>, row: Joined)
    requires |parts| == |stages|
  {
    |row| == n + |stages| && forall i :: 0 <= i < |stages| ==> All(w, [stages[i].src], [row[n + i]], parts[i])
  }

  function KeepTail(w: World, n: nat, stages: seq<Stage>, parts: seq<seq<Expr>>, js: seq<Joined>): seq<Joined>
    requires |parts| == |stages|
  {
    if js == [] then []
    else
      var rest := KeepTail(w, n, stages, parts, js[1..]);
      if PassesTail(w, n, stages, parts, js[0]) then [js[0]] + rest else rest
  }

  lemma PassesTailStep(w: World, n: nat, stages: seq<Stage>, parts: seq<seq<Expr>>, row: Joined)
    requires |parts| == |stages| > 0 && |row| == n + |stages|
    ensures PassesTail(w, n, stages, parts, row)
       <==> All(w, [stages[0].src], [row[n]], parts[0]) && PassesTail(w, n + 1, stages[1..], parts[1..], row)
  {
    forall i | 0 <= i < |stages| - 1
      ensures All(w, [stages[1..][i].src], [row[n + 1 + i]], parts[1..][i])
         <==> All(w, [stages[i + 1].src], [row[n + (i + 1)]], parts[i + 1]) {}
    assert row[n + 0] == row[n];
    hide All;
    if PassesTail(w, n + 1, stages[1..], parts[1..], row) && All(w, [stages[0].src], [row[n]], parts[0]) {
      forall i | 0 <= i < |stages| ensures All(w, [stages[i].src], [row[n + i]], parts[i]) {
        if i > 0 { assert All(w, [stages[1..][i - 1].src], [row[n + 1 + (i - 1)]], parts[1..][i - 1]); }
      }
    }
  }

  lemma {:induction false} KeepTailStep(w: World, n: nat, stages: seq<Stage>, parts: seq<seq<Expr>>, js: seq<Joined>)
    requires |parts| == |stages| > 0 && Wide(js, n + |stages|)
    ensures KeepTail(w, n, stages, parts, js)
         == KeepAt(w, stages[0].src, n, parts[0], KeepTail(w, n + 1, stages[1..], parts[1..], js))
    decreases |js|
  {
    if js != [] {
      assert Wide(js[1..], n + |stages|);
      KeepTailStep(w, n, stages, parts, js[1..]);
      PassesTailStep(w, n, stages, parts, js[0]);
      var rest := KeepTail(w, n + 1, stages[1..], parts[1..], js[1..]);
      assert ([js[0]] + rest)[1..] == rest;
      hide PassesTail, All;
    }
  }

  lemma {:induction false} KeepTailEnd(w: World, n: nat, js: seq<Joined>)
    requires Wide(js, n)
    ensures KeepTail(w, n, [], [], js) == js
    decreases |js|
  {
    if js != [] {
      assert Wide(js[1..], n);
      KeepTailEnd(w, n, js[1..]);
    }
  }

  lemma {:induction false} PipeWide(w: World, srcs: seq<Source>, ls: seq<Joined>, stages: seq<Stage>)
    requires Wide(ls, |srcs|)
    ensures Wide(Pipe(w, srcs, ls, stages), |srcs| + |stages|)
    decreases |stages|
  {
    if stages != [] {
      var s := stages[0];
      JoinWide(w, srcs + [s.src], ls, KeepRows(w, s.src, s.pushed, s.rows), s.on, s.kind, |s.src.columns|, |srcs|);
      PipeWide(w, srcs + [s.src], JoinStage(w, srcs, ls, s), stages[1..]);
    }
  }

  lemma StageKeep(w: World, srcs: seq<Source>, ls: seq<Joined>, s: Stage, cs: seq<Expr>)
    requires Wide(ls, |srcs|) && (s.kind == LeftOuter ==> cs == [])
    ensures KeepAt(w, s.src, |srcs|, cs, JoinStage(w, srcs, ls, s))
         == JoinStage(w, srcs, ls, s.(pushed := s.pushed + cs))
  {
    var rows := KeepRows(w, s.src, s.pushed, s.rows);
    var srcs1 := srcs + [s.src];
    if s.kind == LeftOuter {
      JoinWide(w, srcs1, ls, rows, s.on, s.kind, |s.src.columns|, |srcs|);
      KeepAll(w, s.src, |srcs|, JoinStage(w, srcs, ls, s));
      assert s.pushed + cs == s.pushed;
    } else {
      KeepLastJoin(w, s.src, cs, srcs1, ls, rows, s.on, |s.src.columns|, |srcs|);
      KeepRowsTwice(w, s.src, s.pushed, cs, s.rows);
    }
  }

  /** Filtering the joined rows by conjuncts of INNER-joined tables is filtering
      those tables when they are scanned. */
  lemma {:induction false} MoveWhere(w: World, srcs: seq<Source>, ls: seq<Joined>, stages: seq<Stage>,
                                     parts: seq<seq<Expr>>)
    requires Wide(ls, |srcs|) && |parts| == |stages|
    requires forall i :: 0 <= i < |stages| && stages[i].kind == LeftOuter ==> parts[i] == []
    ensures KeepTail(w, |srcs|, stages, parts, Pipe(w, srcs, ls, stages)) == Pipe(w, srcs, ls, WithParts(stages, parts))
    decreases |stages|
  {
    PipeWide(w, srcs, ls, stages);
    if stages == [] {
      KeepTailEnd(w, |srcs|, ls);
    } else {
      var s, rest, more := stages[0], stages[1..], parts[1..];
      var srcs1, l1 := srcs + [s.src], JoinStage(w, srcs, ls, s);
      JoinWide(w, srcs1, ls, KeepRows(w, s.src, s.pushed, s.rows), s.on, s.kind, |s.src.columns|, |srcs|);
      MoveWhere(w, srcs1, l1, rest, more);
      KeepTailStep(w, |srcs|, stages, parts, Pipe(w, srcs, ls, stages));
      assert s.src == srcs1[|srcs|];
      KeepAtPipe(w, s.src, |srcs|, parts[0], srcs1, l1, WithParts(rest, more));
      StageKeep(w, srcs, ls, s, parts[0]);
      assert WithParts(stages, parts)[1..] == WithParts(rest, more);
      hide KeepTail, KeepAt, Join, KeepRows, Wide;
    }
  }

  lemma {:induction false} AllSourcesAt(srcs: seq<Source>, stages: seq<Stage>)
    ensures |AllSources(srcs, stages)| == |srcs| + |stages|
    ensures srcs <= AllSources(srcs, stages)
    ensures forall i :: 0 <= i < |stages| ==> AllSources(srcs, stages)[|srcs| + i] == stages[i].src
    decreases |stages|
  {
    if stages != [] {
      var s1 := srcs + [stages[0].src];
      AllSourcesAt(s1, stages[1..]);
      forall i | 0 <= i < |stages| ensures AllSources(srcs, stages)[|srcs| + i] == stages[i].src {
        if i > 0 { assert AllSources(s1, stages[1..])[|s1| + (i - 1)] == stages[1..][i - 1].src; }
        else { assert s1[|srcs|] == stages[0].src; }
      }
    }
  }

  /** A WHERE holds on a joined row exactly when its parts hold where they went. */
  lemma {:induction false} WhereSplits(w: World, base: Source, stages: seq<Stage>, row: Joined, cs: seq<Expr>)
    requires |row| == 1 + |stages|
    requires Distinct(AllSources([base], stages)) && ClearAll(AllSources([base], stages), cs)
    ensures All(w, AllSources([base], stages), row, cs)
       <==> && All(w, AllSources([base], stages), row, WherePart(cs, base, stages, None))
            && All(w, [base], [row[0]], WherePart(cs, base, stages, Some(0)))
            && PassesTail(w, 1, stages, WhereParts(cs, base, stages), row)
    decreases |cs|
  {
    var srcs := AllSources([base], stages);
    AllSourcesAt([base], stages);
    if cs != [] {
      var c, rest := cs[0], cs[1..];
      assert cs == [c] + rest;
      assert ClearAll(srcs, rest);
      WhereSplits(w, base, stages, row, rest);
      AllCons(w, srcs, row, c, rest);
      AllCons(w, srcs, row, c, WherePart(rest, base, stages, None));
      AllCons(w, [base], [row[0]], c, WherePart(rest, base, stages, Some(0)));
      TailCons(w, base, stages, row, c, rest);
      PlacedValue(w, base, stages, row, c);
      hide All, PassesTail, Eval, Clear, Local, Distinct, PlaceAmong, WhereParts, AllSources;
    }
  }

  predicate HoldsInTail(w: World, base: Source, stages: seq<Stage>, row: Joined, c: Expr)
    requires |row| == 1 + |stages|
  {
    var p := PlaceOf(c, base, stages);
    p.Some? && p.value > 0 ==> Holds(w, [stages[p.value - 1].src], [row[p.value]], c)
  }

  lemma PlacedValue(w: World, base: Source, stages: seq<Stage>, row: Joined, c: Expr)
    requires |row| == 1 + |stages|
    requires Distinct(AllSources([base], stages)) && Clear(AllSources([base], stages), c)
    ensures PlaceOf(c, base, stages) == Some(0) ==>
              (Holds(w, AllSources([base], stages), row, c) <==> Holds(w, [base], [row[0]], c))
    ensures PlaceOf(c, base, stages).Some? && PlaceOf(c, base, stages).value > 0 ==>
              (Holds(w, AllSources([base], stages), row, c) <==> HoldsInTail(w, base, stages, row, c))
  {
    var srcs := AllSources([base], stages);
    AllSourcesAt([base], stages);
    var p := PlaceOf(c, base, stages);
    hide Eval, Clear, Local, Distinct, AllSources;
    if p.Some? {
      assert srcs[p.value] == if p.value == 0 then base else stages[p.value - 1].src;
      LocalValue(w, srcs, row, p.value, c);
    }
  }

  lemma TailCons(w: World, base: Source, stages: seq<Stage>, row: Joined, c: Expr, cs: seq<Expr>)
    requires |row| == 1 + |stages|
    ensures PassesTail(w, 1, stages, WhereParts([c] + cs, base, stages), row)
       <==> HoldsInTail(w, base, stages, row, c) && PassesTail(w, 1, stages, WhereParts(cs, base, stages), row)
  {
    var p := PlaceOf(c, base, stages);
    assert ([c] + cs)[1..] == cs;
    var parts, parts1 := WhereParts(cs, base, stages), WhereParts([c] + cs, base, stages);
    forall i | 0 <= i < |stages|
      ensures All(w, [stages[i].src], [row[1 + i]], parts1[i])
         <==> All(w, [stages[i].src], [row[1 + i]], parts[i])
              && (p == Some(i + 1) ==> Holds(w, [stages[i].src], [row[1 + i]], c))
    {
      AllCons(w, [stages[i].src], [row[1 + i]], c, parts[i]);
    }
    hide All, Eval, WherePart;
  }

  lemma {:induction false} KeepSplit(w: World, base: Source, stages: seq<Stage>, cs: seq<Expr>, js: seq<Joined>)
    requires Wide(js, 1 + |stages|)
    requires Distinct(AllSources([base], stages)) && ClearAll(AllSources([base], stages), cs)
    ensures Keep(w, AllSources([base], stages), cs, js)
         == Keep(w, AllSources([base], stages), WherePart(cs, base, stages, None),
                 KeepAt(w, base, 0, WherePart(cs, base, stages, Some(0)),
                        KeepTail(w, 1, stages, WhereParts(cs, base, stages), js)))
    decreases |js|
  {
    if js != [] {
      var j := js[0];
      assert Wide(js[1..], 1 + |stages|);
      KeepSplit(w, base, stages, cs, js[1..]);
      WhereSplits(w, base, stages, j, cs);
      var tail := KeepTail(w, 1, stages, WhereParts(cs, base, stages), js[1..]);
      assert ([j] + tail)[1..] == tail;
      var kept := KeepAt(w, base, 0, WherePart(cs, base, stages, Some(0)), tail);
      assert ([j] + kept)[1..] == kept;
      hide All, PassesTail, WherePart, WhereParts, Distinct, ClearAll, AllSources;
    }
  }

  lemma {:induction false} LeftGetsNone(cs: seq<Expr>, base: Source, stages: seq<Stage>, i: nat)
    requires i < |stages| && stages[i].kind == LeftOuter
    ensures WherePart(cs, base, stages, Some(i + 1)) == []
    decreases |cs|
  {
    if cs != [] { LeftGetsNone(cs[1..], base, stages, i); }
  }

  // ---- pushdown on lists of conjuncts ----

  predicate SameTables(stages: seq<Stage>, stages': seq<Stage>) {
    |stages| == |stages'| &&
    forall i :: 0 <= i < |stages| ==> stages[i].src == stages'[i].src && stages[i].kind == stages'[i].kind
  }

  lemma {:induction false} SamePlaceAmong(c: Expr, stages: seq<Stage>, stages': seq<Stage>, i: nat)
    requires SameTables(stages, stages') && i <= |stages|
    ensures PlaceAmong(c, stages, i) == PlaceAmong(c, stages', i)
    decreases |stages| - i
  {
    if i < |stages| { SamePlaceAmong(c, stages, stages', i + 1); }
  }

  lemma {:induction false} SameParts(cs: seq<Expr>, base: Source, stages: seq<Stage>, stages': seq<Stage>,
                                     at: Option<nat>)
    requires SameTables(stages, stages')
    ensures WherePart(cs, base, stages, at) == WherePart(cs, base, stages', at)
  {
    if cs != [] {
      SamePlaceAmong(cs[0], stages, stages', 0);
      SameParts(cs[1..], base, stages, stages', at);
    }
  }

  lemma {:induction false} LocalisedSame(base: Source, stages: seq<Stage>)
    ensures SameTables(stages, LocalisedAll(base, stages))
    decreases |stages|
  {
    if stages != [] {
      LocalisedSame(base, stages[1..]);
      var tail := LocalisedAll(base, stages[1..]);
      forall i | 0 <= i < |stages|
        ensures LocalisedAll(base, stages)[i].src == stages[i].src
        ensures LocalisedAll(base, stages)[i].kind == stages[i].kind
      {
        if i > 0 { assert LocalisedAll(base, stages)[i] == tail[i - 1] && stages[1..][i - 1] == stages[i]; }
      }
    }
  }

  lemma SameSources(srcs: seq<Source>, stages: seq<Stage>, stages': seq<Stage>)
    requires SameTables(stages, stages')
    ensures AllSources(srcs, stages) == AllSources(srcs, stages')
  {
    AllSourcesAt(srcs, stages);
    AllSourcesAt(srcs, stages');
    var a, b := AllSources(srcs, stages), AllSources(srcs, stages');
    forall i | 0 <= i < |a| ensures a[i] == b[i] {
      if i >= |srcs| { assert a[|srcs| + (i - |srcs|)] == stages[i - |srcs|].src; }
    }
  }

  /** The query carried out as written. */
  function Plain(w: World, base: Source, stages: seq<Stage>, cs: seq<Expr>, rows: seq<Row>): seq<Joined> {
    Keep(w, AllSources([base], stages), cs, Pipe(w, [base], Singles(rows), stages))
  }

  /** The query carried out with local conjuncts of WHERE and ON applied in the
      scans and only the others where they were written. */
  function PushedDown(w: World, base: Source, stages: seq<Stage>, cs: seq<Expr>, rows: seq<Row>): seq<Joined> {
    var atBase := WherePart(cs, base, stages, Some(0)) + BaseParts(base, stages);
    LocalisedSame(base, stages);
    var scans := WithParts(LocalisedAll(base, stages), WhereParts(cs, base, stages));
    Keep(w, AllSources([base], stages), WherePart(cs, base, stages, None),
         Pipe(w, [base], Singles(KeepRows(w, base, atBase, rows)), scans))
  }

  /** The ON half. */
  lemma OnMoved(w: World, base: Source, stages: seq<Stage>, rows: seq<Row>)
    requires Ready([base], stages)
    ensures var l1 := Singles(KeepRows(w, base, BaseParts(base, stages), rows));
      && Wide(l1, 1) && Wide(Pipe(w, [base], l1, LocalisedAll(base, stages)), 1 + |stages|)
      && Pipe(w, [base], Singles(rows), stages) == Pipe(w, [base], l1, LocalisedAll(base, stages))
  {
    hide Wide, Ready, Pipe, KeepAt, KeepRows, Singles, BaseParts, LocalisedAll;
    var bases := BaseParts(base, stages);
    SinglesWide(rows);
    MoveOn(w, [base], Singles(rows), stages);
    KeepAtSingles(w, base, bases, rows);
    SinglesWide(KeepRows(w, base, bases, rows));
    LocalisedSame(base, stages);
    PipeWide(w, [base], Singles(KeepRows(w, base, bases, rows)), LocalisedAll(base, stages));
  }

  /** The WHERE half. */
  lemma WhereMoved(w: World, base: Source, stages: seq<Stage>, cs: seq<Expr>, rows: seq<Row>, bases: seq<Expr>)
    requires Wide(Singles(KeepRows(w, base, bases, rows)), 1)
    ensures var l1 := Singles(KeepRows(w, base, bases, rows));
      var parts, atBase := WhereParts(cs, base, stages), WherePart(cs, base, stages, Some(0));
      KeepAt(w, base, 0, atBase, KeepTail(w, 1, stages, parts, Pipe(w, [base], l1, stages)))
        == Pipe(w, [base], Singles(KeepRows(w, base, atBase + bases, rows)), WithParts(stages, parts))
  {
    var l0 := Singles(rows);
    var parts, atBase := WhereParts(cs, base, stages), WherePart(cs, base, stages, Some(0));
    forall i | 0 <= i < |stages| && stages[i].kind == LeftOuter ensures parts[i] == [] {
      LeftGetsNone(cs, base, stages, i);
    }
    hide Wide, Pipe, KeepAt, KeepTail, KeepRows, Singles, WhereParts, WherePart, WithParts;
    var l1 := KeepAt(w, base, 0, bases, l0);
    KeepAtSingles(w, base, bases, rows);
    MoveWhere(w, [base], l1, stages, parts);
    KeepAtPipe(w, base, 0, atBase, [base], l1, WithParts(stages, parts));
    KeepAtTwice(w, base, 0, atBase, bases, l0);
    KeepAtSingles(w, base, atBase + bases, rows);
  }

  /** Pushdown keeps the sequence of result rows, for any number of INNER and LEFT
      JOINs and any tables. */
  lemma PushdownPreserves(w: World, base: Source, stages: seq<Stage>, cs: seq<Expr>, rows: seq<Row>)
    requires Ready([base], stages)
    requires Distinct(AllSources([base], stages)) && ClearAll(AllSources([base], stages), cs)
    ensures PushedDown(w, base, stages, cs, rows) == Plain(w, base, stages, cs, rows)
  {
    hide Wide, Ready, Distinct, ClearAll, Pipe, Keep, KeepAt, KeepTail, KeepRows, Singles, WherePart, WithParts,
         BaseParts, LocalisedAll, AllSources, SameTables;
    var bases, moved := BaseParts(base, stages), LocalisedAll(base, stages);
    var l1 := Singles(KeepRows(w, base, bases, rows));
    OnMoved(w, base, stages, rows);
    LocalisedSame(base, stages);
    SamePlaces(cs, base, stages, moved);
    KeepSplit(w, base, stages, cs, Pipe(w, [base], l1, moved));
    TailSame(w, stages, moved, WhereParts(cs, base, stages), Pipe(w, [base], l1, moved));
    WhereMoved(w, base, moved, cs, rows, bases);
  }

  lemma SamePlaces(cs: seq<Expr>, base: Source, stages: seq<Stage>, stages': seq<Stage>)
    requires SameTables(stages, stages')
    ensures |stages| == |stages'|
    ensures WhereParts(cs, base, stages) == WhereParts(cs, base, stages')
    ensures WherePart(cs, base, stages, Some(0)) == WherePart(cs, base, stages', Some(0))
    ensures WherePart(cs, base, stages, None) == WherePart(cs, base, stages', None)
  {
    forall i | 0 <= i < |stages| ensures WhereParts(cs, base, stages)[i] == WhereParts(cs, base, stages')[i] {
      SameParts(cs, base, stages, stages', Some(i + 1));
    }
    SameParts(cs, base, stages, stages', Some(0));
    SameParts(cs, base, stages, stages', None);
  }

  lemma {:induction false} TailSame(w: World, stages: seq<Stage>, stages': seq<Stage>, parts: seq<seq<Expr>>,
                                    js: seq<Joined>)
    requires SameTables(stages, stages') && |parts| == |stages|
    ensures KeepTail(w, 1, stages, parts, js) == KeepTail(w, 1, stages', parts, js)
  {
    if js != [] {
      TailSame(w, stages, stages', parts, js[1..]);
      assert |js[0]| == 1 + |stages| ==> forall i :: 0 <= i < |stages| ==>
        (All(w, [stages[i].src], [js[0][1 + i]], parts[i]) <==> All(w, [stages'[i].src], [js[0][1 + i]], parts[i]));
      hide All;
    }
  }

  // ---- what the executor does with the plan ----
  //
  // It never looks at the ON conjuncts that the planner set aside as local to the
  // right table, so that they are applied nowhere.

  function NotRight(on: seq<Expr>, src: Source): seq<Expr> {
    if on == [] then []
    else
      var rest := NotRight(on[1..], src);
      if Local(on[0], src) then rest else [on[0]] + rest
  }

  /** A query without the ON conjuncts local to right tables. */
  function WithoutRight(stages: seq<Stage>): seq<Stage>
    decreases |stages|
  {
    if stages == [] then []
    else [stages[0].(on := NotRight(stages[0].on, stages[0].src))] + WithoutRight(stages[1..])
  }

  /** The joins as the executor carries them out. */
  function BuiltAll(base: Source, stages: seq<Stage>): seq<Stage>
    decreases |stages|
  {
    if stages == [] then []
    else
      var s := stages[0];
      [s.(on := OnPart(s.on, s.kind, s.src, base, BothSides))] + BuiltAll(base, stages[1..])
  }

  lemma {:induction false} NotRightParts(on: seq<Expr>, kind: Kind, src: Source, base: Source)
    ensures OnPart(NotRight(on, src), kind, src, base, RightSide) == []
    ensures OnPart(NotRight(on, src), kind, src, base, BaseSide) == OnPart(on, kind, src, base, BaseSide)
    ensures OnPart(NotRight(on, src), kind, src, base, BothSides) == OnPart(on, kind, src, base, BothSides)
  {
    if on != [] {
      NotRightParts(on[1..], kind, src, base);
      var rest := NotRight(on[1..], src);
      assert ([on[0]] + rest)[1..] == rest;
      hide Local;
    }
  }

  lemma {:induction false} WithoutRightParts(base: Source, stages: seq<Stage>)
    ensures LocalisedAll(base, WithoutRight(stages)) == BuiltAll(base, stages)
    ensures BaseParts(base, WithoutRight(stages)) == BaseParts(base, stages)
    ensures SameTables(stages, WithoutRight(stages)) && SameTables(stages, BuiltAll(base, stages))
    decreases |stages|
  {
    if stages != [] {
      var s := stages[0];
      var tail, built := WithoutRight(stages[1..]), BuiltAll(base, stages[1..]);
      WithoutRightParts(base, stages[1..]);
      NotRightParts(s.on, s.kind, s.src, base);
      assert WithoutRight(stages)[1..] == tail;
      assert s.pushed + [] == s.pushed;
      forall i | 0 <= i < |stages|
        ensures WithoutRight(stages)[i].src == stages[i].src && WithoutRight(stages)[i].kind == stages[i].kind
        ensures BuiltAll(base, stages)[i].src == stages[i].src && BuiltAll(base, stages)[i].kind == stages[i].kind
      {
        if i > 0 {
          assert stages[1..][i - 1] == stages[i];
          assert WithoutRight(stages)[i] == tail[i - 1] && BuiltAll(base, stages)[i] == built[i - 1];
        }
      }
      hide OnPart, NotRight;
    }
  }

  lemma {:induction false} NotRightClear(srcs: seq<Source>, on: seq<Expr>, src: Source)
    requires ClearAll(srcs, on)
    ensures ClearAll(srcs, NotRight(on, src))
  {
    if on != [] {
      assert ClearAll(srcs, on[1..]) && Clear(srcs, on[0]);
      NotRightClear(srcs, on[1..], src);
      hide Clear, Local;
    }
  }

  lemma {:induction false} WithoutRightReady(srcs: seq<Source>, stages: seq<Stage>)
    requires Ready(srcs, stages)
    ensures Ready(srcs, WithoutRight(stages))
    decreases |stages|
  {
    if stages != [] {
      NotRightClear(srcs + [stages[0].src], stages[0].on, stages[0].src);
      WithoutRightReady(srcs + [stages[0].src], stages[1..]);
      assert WithoutRight(stages)[1..] == WithoutRight(stages[1..]);
      hide Distinct, ClearAll;
    }
  }

  /** The result rows the executor computes, where nothing raises. */
  function AsBuilt(w: World, base: Source, stages: seq<Stage>, cs: seq<Expr>, rows: seq<Row>): seq<Joined> {
    var atBase := WherePart(cs, base, stages, Some(0)) + BaseParts(base, stages);
    WithoutRightParts(base, stages);
    var scans := WithParts(BuiltAll(base, stages), WhereParts(cs, base, stages));
    Keep(w, AllSources([base], stages), WherePart(cs, base, stages, None),
         Pipe(w, [base], Singles(KeepRows(w, base, atBase, rows)), scans))
  }

  /** They are those of the query with the right-local ON conjuncts struck out. */
  lemma AsBuiltDropsOn(w: World, base: Source, stages: seq<Stage>, cs: seq<Expr>, rows: seq<Row>)
    requires Ready([base], stages)
    requires Distinct(AllSources([base], stages)) && ClearAll(AllSources([base], stages), cs)
    ensures AsBuilt(w, base, stages, cs, rows) == Plain(w, base, WithoutRight(stages), cs, rows)
  {
    var struck := WithoutRight(stages);
    WithoutRightReady([base], stages);
    WithoutRightParts(base, stages);
    SameSources([base], stages, struck);
    PushdownPreserves(w, base, struck, cs, rows);
    SamePlaces(cs, base, stages, struck);
    hide Keep, Pipe, KeepRows, WherePart, WhereParts, BaseParts, LocalisedAll, WithParts, AllSources, Distinct,
         ClearAll, Ready, BuiltAll, Singles, WithoutRight, SameTables;
  }

  // ---- when a struck conjunct is missed ----

  predicate Missed(w: World, srcs: seq<Source>, l: Joined, r: Row, on: seq<Expr>, fewer: seq<Expr>) {
    All(w, srcs, l + [r], fewer) && !All(w, srcs, l + [r], on)
  }

  predicate Weaker(w: World, srcs: seq<Source>, l: Joined, r: Row, on: seq<Expr>, fewer: seq<Expr>) {
    All(w, srcs, l + [r], on) ==> All(w, srcs, l + [r], fewer)
  }

  predicate NoneMissed(w: World, srcs: seq<Source>, l: Joined, rows: seq<Row>, on: seq<Expr>, fewer: seq<Expr>) {
    forall r :: r in rows ==> !Missed(w, srcs, l, r, on, fewer)
  }

  lemma NoneMissedStep(w: World, srcs: seq<Source>, l: Joined, rows: seq<Row>, on: seq<Expr>, fewer: seq<Expr>)
    requires rows != []
    ensures NoneMissed(w, srcs, l, rows, on, fewer)
       <==> !Missed(w, srcs, l, rows[0], on, fewer) && NoneMissed(w, srcs, l, rows[1..], on, fewer)
  {
    hide Missed;
    assert forall r :: r in rows <==> r == rows[0] || r in rows[1..];
  }

  lemma {:induction false} MatchesFewer(w: World, srcs: seq<Source>, l: Joined, rows: seq<Row>, on: seq<Expr>,
                                        fewer: seq<Expr>)
    requires forall r :: r in rows ==> Weaker(w, srcs, l, r, on, fewer)
    ensures |Matches(w, srcs, l, rows, on)| <= |Matches(w, srcs, l, rows, fewer)|
    ensures |Matches(w, srcs, l, rows, on)| == |Matches(w, srcs, l, rows, fewer)|
         <==> NoneMissed(w, srcs, l, rows, on, fewer)
    ensures NoneMissed(w, srcs, l, rows, on, fewer) ==>
              Matches(w, srcs, l, rows, on) == Matches(w, srcs, l, rows, fewer)
    decreases |rows|
  {
    if rows != [] {
      assert Weaker(w, srcs, l, rows[0], on, fewer);
      assert Missed(w, srcs, l, rows[0], on, fewer)
           <==> All(w, srcs, l + [rows[0]], fewer) && !All(w, srcs, l + [rows[0]], on);
      NoneMissedStep(w, srcs, l, rows, on, fewer);
      hide All, NoneMissed, Missed, Weaker;
      MatchesFewer(w, srcs, l, rows[1..], on, fewer);
    }
  }

  lemma {:induction false} NotRightHolds(w: World, srcs: seq<Source>, row: Joined, on: seq<Expr>, src: Source)
    requires All(w, srcs, row, on)
    ensures All(w, srcs, row, NotRight(on, src))
  {
    if on != [] {
      assert on == [on[0]] + on[1..];
      AllCons(w, srcs, row, on[0], on[1..]);
      NotRightHolds(w, srcs, row, on[1..], src);
      AllCons(w, srcs, row, on[0], NotRight(on[1..], src));
      hide All, Local;
    }
  }
}
