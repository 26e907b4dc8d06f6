/** Whole queries: what a planned and executed SELECT returns, compared with the
    query carried out as it is written. */
module Pushdown {
  import opened Basics
  import opened Expressions
  import opened Planner
  import opened Executor

  // ---- queries that cannot raise ----

  /** A row that a join over these tables can form; NULLs may stand for any table. */
  predicate Fits(srcs: seq<Source>, tables: seq<seq<Row>>, row: Joined) {
    && |row| == |srcs| <= |tables|
    && forall i :: 0 <= i < |row| ==> row[i] in tables[i] || row[i] == Nulls(|srcs[i].columns|)
  }

  predicate AllFit(srcs: seq<Source>, tables: seq<seq<Row>>, js: seq<Joined>) {
    forall i :: 0 <= i < |js| ==> Fits(srcs, tables, js[i])
  }

  /** Each conjunct is TRUE, FALSE or UNKNOWN on every such row. */
  ghost predicate AllTruth(w: World, srcs: seq<Source>, tables: seq<seq<Row>>, cs: seq<Expr>) {
    forall row :: Fits(srcs, tables, row) ==> AllTruths(w, srcs, row, cs)
  }

  ghost predicate TotalOn(w: World, srcs: seq<Source>, tables: seq<seq<Row>>, stages: seq<Stage>)
    decreases |stages|
  {
    stages != [] ==>
      && AllTruth(w, srcs + [stages[0].src], tables, stages[0].on)
      && TotalOn(w, srcs + [stages[0].src], tables, stages[1..])
  }

  // ---- evaluation that does not raise is the filter it stands for ----

  lemma TestIsAll(w: World, srcs: seq<Source>, row: Joined, cs: seq<Expr>)
    requires AllTruths(w, srcs, row, cs)
    ensures Test(w, srcs, row, PredOf(ChainOf(cs))) == Done(All(w, srcs, row, cs))
  {
    if cs != [] { ChainHolds(w, srcs, row, cs); }
  }

  lemma CombineSomes(cs: seq<Expr>)
    ensures Combine(Somes(cs)) == PredOf(ChainOf(cs))
  {
    var es := Somes(cs);
    if cs != [] {
      assert es[0].Some? && es != [None];
      assert seq(|es|, i requires 0 <= i < |es| => es[i].value) == cs;
    }
  }

  lemma {:induction false} AcceptedIsKeep(w: World, src: Source, cs: seq<Expr>, entries: seq<(Value, Row)>)
    requires forall i :: 0 <= i < |entries| ==> AllTruths(w, [src], [entries[i].1], cs)
    ensures Accepted(w, src, PredOf(ChainOf(cs)), entries).Done?
    ensures RowsOf(Accepted(w, src, PredOf(ChainOf(cs)), entries).value) == KeepRows(w, src, cs, RowsOf(entries))
    decreases |entries|
  {
    if entries != [] {
      var rest := entries[1..];
      TestIsAll(w, [src], [entries[0].1], cs);
      assert RowsOf(entries)[1..] == RowsOf(rest);
      forall i | 0 <= i < |rest| ensures AllTruths(w, [src], [rest[i].1], cs) {
        assert rest[i] == entries[i + 1];
      }
      hide Test, All, AllTruths, PredOf, ChainOf;
      AcceptedIsKeep(w, src, cs, rest);
      var more := Accepted(w, src, PredOf(ChainOf(cs)), rest).value;
      assert RowsOf([entries[0]] + more) == [entries[0].1] + RowsOf(more);
      AppendedTwice([], [], Done(more));
    }
  }

  lemma ScanIsKeep(w: World, src: Source, cs: seq<Expr>, t: Data)
    requires Keyed(src, t)
    requires forall i :: 0 <= i < |t.entries| ==> AllTruths(w, [src], [t.entries[i].1], cs)
    ensures Scan(w, ScanPlan(src, Somes(cs)), t) == Done(KeepRows(w, src, cs, RowsOf(t.entries)))
  {
    hide Scan, Keyed, Accepted, Combine, AllTruths, RowsOf;
    CombineSomes(cs);
    AcceptedIsKeep(w, src, cs, t.entries);
    IndexPathIsScan(w, ScanPlan(src, Somes(cs)), t);
  }

  lemma {:induction false} MatchesDone(w: World, srcs: seq<Source>, l: Joined, rows: seq<Row>, cs: seq<Expr>)
    requires forall i :: 0 <= i < |rows| ==> AllTruths(w, srcs, l + [rows[i]], cs)
    ensures TryMatches(w, srcs, l, rows, PredOf(ChainOf(cs))) == Done(Matches(w, srcs, l, rows, cs))
    decreases |rows|
  {
    if rows != [] {
      TestIsAll(w, srcs, l + [rows[0]], cs);
      forall i | 0 <= i < |rows[1..]| ensures AllTruths(w, srcs, l + [rows[1..][i]], cs) {
        assert rows[1..][i] == rows[i + 1];
      }
      hide Test, All, AllTruths, PredOf, ChainOf;
      MatchesDone(w, srcs, l, rows[1..], cs);
      AppendedTwice([], [], Done(Matches(w, srcs, l, rows[1..], cs)));
    }
  }

  lemma FitsLonger(srcs: seq<Source>, src: Source, tables: seq<seq<Row>>, l: Joined, r: Row)
    requires Fits(srcs, tables, l) && |srcs| < |tables| && (r in tables[|srcs|] || r == Nulls(|src.columns|))
    ensures Fits(srcs + [src], tables, l + [r])
  {
  }

  lemma {:induction false} MatchesFit(w: World, srcs: seq<Source>, tables: seq<seq<Row>>, src: Source, l: Joined,
                                      rows: seq<Row>, cs: seq<Expr>)
    requires Fits(srcs, tables, l) && |srcs| < |tables| && forall r :: r in rows ==> r in tables[|srcs|]
    ensures AllFit(srcs + [src], tables, Matches(w, srcs + [src], l, rows, cs))
    decreases |rows|
  {
    if rows != [] {
      FitsLonger(srcs, src, tables, l, rows[0]);
      hide Fits, All;
      MatchesFit(w, srcs, tables, src, l, rows[1..], cs);
    }
  }

  lemma AllFitConcat(srcs: seq<Source>, tables: seq<seq<Row>>, js: seq<Joined>, ks: seq<Joined>)
    requires AllFit(srcs, tables, js) && AllFit(srcs, tables, ks)
    ensures AllFit(srcs, tables, js + ks)
  {
    hide Fits;
  }

  lemma {:induction false} JoinFits(w: World, srcs: seq<Source>, tables: seq<seq<Row>>, src: Source, ls: seq<Joined>,
                                    rows: seq<Row>,
                                    cs: seq<Expr>, kind: Kind)
    requires AllFit(srcs, tables, ls) && |srcs| < |tables| && forall r :: r in rows ==> r in tables[|srcs|]
    ensures AllFit(srcs + [src], tables, Join(w, srcs + [src], ls, rows, cs, kind, |src.columns|))
    decreases |ls|
  {
    if ls != [] {
      assert Fits(srcs, tables, ls[0]);
      MatchesFit(w, srcs, tables, src, ls[0], rows, cs);
      FitsLonger(srcs, src, tables, ls[0], Nulls(|src.columns|));
      hide Fits, Matches, Nulls;
      assert AllFit(srcs, tables, ls[1..]);
      JoinFits(w, srcs, tables, src, ls[1..], rows, cs, kind);
      AllFitConcat(srcs + [src], tables, JoinRow(w, srcs + [src], ls[0], rows, cs, kind, |src.columns|),
                   Join(w, srcs + [src], ls[1..], rows, cs, kind, |src.columns|));
    }
  }

  /** One join whose conjuncts do not raise. */
  lemma {:induction false} JoinDone(w: World, srcs: seq<Source>, tables: seq<seq<Row>>, src: Source, ls: seq<Joined>,
                                    rows: seq<Row>,
                                    cs: seq<Expr>, kind: Kind)
    requires AllFit(srcs, tables, ls) && |srcs| < |tables| && forall r :: r in rows ==> r in tables[|srcs|]
    requires AllTruth(w, srcs + [src], tables, cs)
    ensures TryJoin(w, srcs + [src], ls, rows, PredOf(ChainOf(cs)), kind, |src.columns|)
         == Done(Join(w, srcs + [src], ls, rows, cs, kind, |src.columns|))
    decreases |ls|
  {
    if ls != [] {
      var l := ls[0];
      assert Fits(srcs, tables, l);
      forall i | 0 <= i < |rows| ensures AllTruths(w, srcs + [src], l + [rows[i]], cs) {
        FitsLonger(srcs, src, tables, l, rows[i]);
      }
      hide AllTruths, Fits, Matches, TryMatches, Nulls, PredOf, ChainOf, AllTruth;
      MatchesDone(w, srcs + [src], l, rows, cs);
      assert AllFit(srcs, tables, ls[1..]);
      JoinDone(w, srcs, tables, src, ls[1..], rows, cs, kind);
    }
  }

  lemma {:induction false} KeepRowsIn(w: World, src: Source, cs: seq<Expr>, rows: seq<Row>, r: Row)
    requires r in KeepRows(w, src, cs, rows)
    ensures r in rows
  {
    if rows != [] && r in KeepRows(w, src, cs, rows[1..]) {
      KeepRowsIn(w, src, cs, rows[1..], r);
    }
  }

  /** A planned join carries out a stage. */
  ghost predicate Carries(w: World, j: JoinPlan, t: Data, s: Stage) {
    && j.scan.src == s.src && j.kind == s.kind && j.pred == ChainOf(s.on)
    && Scan(w, j.scan, t) == Done(KeepRows(w, s.src, s.pushed, s.rows))
  }

  /** The planned joins carry out the stages, over the tables from the `n`-th on. */
  ghost predicate CarryAll(w: World, n: nat, tables: seq<seq<Row>>, joins: seq<JoinPlan>, datas: seq<Data>,
                           stages: seq<Stage>) {
    && |joins| == |datas| == |stages| && |tables| == n + |stages|
    && (forall i :: 0 <= i < |stages| ==> Carries(w, joins[i], datas[i], stages[i]))
    && (forall i :: 0 <= i < |stages| ==> stages[i].rows == tables[n + i])
  }

  lemma CarryStep(w: World, n: nat, tables: seq<seq<Row>>, joins: seq<JoinPlan>, datas: seq<Data>, stages: seq<Stage>)
    requires stages != [] && CarryAll(w, n, tables, joins, datas, stages)
    ensures Carries(w, joins[0], datas[0], stages[0]) && stages[0].rows == tables[n]
    ensures CarryAll(w, n + 1, tables, joins[1..], datas[1..], stages[1..])
  {
    hide Carries;
    assert stages[0].rows == tables[n + 0];
    forall i | 0 <= i < |stages| - 1
      ensures Carries(w, joins[1..][i], datas[1..][i], stages[1..][i]) && stages[1..][i].rows == tables[n + 1 + i]
    {
      assert Carries(w, joins[i + 1], datas[i + 1], stages[i + 1]) && stages[i + 1].rows == tables[n + (i + 1)];
    }
  }

  lemma StageDone(w: World, srcs: seq<Source>, tables: seq<seq<Row>>, ls: seq<Joined>, s: Stage)
    requires AllFit(srcs, tables, ls) && |srcs| < |tables| && s.rows == tables[|srcs|]
    requires AllTruth(w, srcs + [s.src], tables, s.on)
    ensures TryJoin(w, srcs + [s.src], ls, KeepRows(w, s.src, s.pushed, s.rows), PredOf(ChainOf(s.on)), s.kind,
                    |s.src.columns|)
         == Done(JoinStage(w, srcs, ls, s))
    ensures AllFit(srcs + [s.src], tables, JoinStage(w, srcs, ls, s))
  {
    var rows := KeepRows(w, s.src, s.pushed, s.rows);
    forall r | r in rows ensures r in tables[|srcs|] {
      KeepRowsIn(w, s.src, s.pushed, s.rows, r);
    }
    hide TryJoin, Join, KeepRows, AllFit, ChainOf, PredOf, AllTruth;
    JoinDone(w, srcs, tables, s.src, ls, rows, s.on, s.kind);
    JoinFits(w, srcs, tables, s.src, ls, rows, s.on, s.kind);
  }

  lemma {:induction false} JoinsDone(w: World, srcs: seq<Source>, tables: seq<seq<Row>>, ls: seq<Joined>,
                                     joins: seq<JoinPlan>, datas: seq<Data>, stages: seq<Stage>)
    requires CarryAll(w, |srcs|, tables, joins, datas, stages)
    requires TotalOn(w, srcs, tables, stages) && AllFit(srcs, tables, ls)
    ensures TryJoins(w, srcs, ls, joins, datas) == Done(Pipe(w, srcs, ls, stages))
    ensures AllFit(AllSources(srcs, stages), tables, Pipe(w, srcs, ls, stages))
    decreases |stages|
  {
    if stages != [] {
      var s := stages[0];
      CarryStep(w, |srcs|, tables, joins, datas, stages);
      StageDone(w, srcs, tables, ls, s);
      JoinsStep(w, srcs, ls, joins, datas, s);
      hide TryJoin, JoinStage, KeepRows, Scan, AllFit, ChainOf, PredOf, AllTruth, Carries, CarryAll, TryJoins;
      JoinsDone(w, srcs + [s.src], tables, JoinStage(w, srcs, ls, s), joins[1..], datas[1..], stages[1..]);
    }
  }

  lemma JoinsStep(w: World, srcs: seq<Source>, ls: seq<Joined>, joins: seq<JoinPlan>, datas: seq<Data>, s: Stage)
    requires |joins| == |datas| > 0 && Carries(w, joins[0], datas[0], s)
    requires var srcs1 := srcs + [s.src];
      TryJoin(w, srcs1, ls, KeepRows(w, s.src, s.pushed, s.rows), PredOf(ChainOf(s.on)), s.kind, |s.src.columns|)
        == Done(JoinStage(w, srcs, ls, s))
    ensures TryJoins(w, srcs, ls, joins, datas)
         == TryJoins(w, srcs + [s.src], JoinStage(w, srcs, ls, s), joins[1..], datas[1..])
  {
    hide TryJoin, JoinStage, KeepRows, Scan, ChainOf, PredOf;
  }

  lemma {:induction false} KeepDone(w: World, srcs: seq<Source>, tables: seq<seq<Row>>, cs: seq<Expr>, js: seq<Joined>)
    requires AllFit(srcs, tables, js) && AllTruth(w, srcs, tables, cs)
    ensures TryKeep(w, srcs, PredOf(ChainOf(cs)), js) == Done(Keep(w, srcs, cs, js))
    decreases |js|
  {
    if js != [] {
      assert Fits(srcs, tables, js[0]);
      TestIsAll(w, srcs, js[0], cs);
      assert AllFit(srcs, tables, js[1..]);
      hide Fits, Test, All, AllTruths, PredOf, ChainOf, AllTruth;
      KeepDone(w, srcs, tables, cs, js[1..]);
      AppendedTwice([], [], Done(Keep(w, srcs, cs, js[1..])));
    }
  }

  // ---- the plan's lists and the stages they stand for ----

  function RowSets(tables: seq<Data>): seq<seq<Row>> {
    seq(|tables|, i requires 0 <= i < |tables| => RowsOf(tables[i].entries))
  }

  /** The joins of the query as written, on these tables. */
  function Stages(q: Select, tables: seq<Data>): seq<Stage>
    requires |tables| == 1 + |q.joins|
  {
    StagesOn(q.joins, RowSets(tables)[1..])
  }

  /** A query whose names are unambiguous and whose conjuncts are truth values on all
      rows its tables can form; the tables are stored by their primary keys. */
  ghost predicate Sound(w: World, q: Select, tables: seq<Data>)
    requires |tables| == 1 + |q.joins|
  {
    var stages := Stages(q, tables);
    var srcs := AllSources([q.base], stages);
    && Ready([q.base], stages) && Distinct(srcs) && ClearAll(srcs, WhereOf(q))
    && TotalOn(w, [q.base], RowSets(tables), stages) && AllTruth(w, srcs, RowSets(tables), WhereOf(q))
    && Keyed(q.base, tables[0]) && forall i :: 0 <= i < |q.joins| ==> Keyed(q.joins[i].src, tables[i + 1])
  }

  lemma {:induction false} AnyPartOfSomes(cs: seq<Expr>, base: Source, stages: seq<Stage>, at: Option<nat>)
    ensures AnyPart(Somes(cs), base, stages, at) == Somes(WherePart(cs, base, stages, at))
    decreases |cs|
  {
    hide PlaceOf;
    if cs != [] {
      assert Somes(cs)[1..] == Somes(cs[1..]);
      AnyPartOfSomes(cs[1..], base, stages, at);
      var rest := WherePart(cs[1..], base, stages, at);
      assert Somes([cs[0]] + rest) == [Some(cs[0])] + Somes(rest);
    }
  }

  /** Where the WHERE conjuncts of a query go, absent or not. */
  lemma WherePlaced(q: Select, stages: seq<Stage>, at: Option<nat>)
    requires SameTables(Shape(q.joins), stages)
    ensures at != Some(0) || q.filter.Some? ==>
              AnyPart(SplitWhere(q.filter), q.base, Shape(q.joins), at)
              == Somes(WherePart(WhereOf(q), q.base, stages, at))
    ensures q.filter.None? ==> AnyPart(SplitWhere(q.filter), q.base, Shape(q.joins), Some(0)) == [None]
  {
    SameParts(WhereOf(q), q.base, Shape(q.joins), stages, at);
    if q.filter.Some? {
      AnyPartOfSomes(WhereOf(q), q.base, Shape(q.joins), at);
    } else {
      var one: seq<Option<Expr>> := [None];
      assert one[1..] == [];
    }
  }

  predicate SameJoins(stages: seq<Stage>, stages': seq<Stage>) {
    SameTables(stages, stages') && forall i :: 0 <= i < |stages| ==> stages[i].on == stages'[i].on
  }

  lemma {:induction false} BasePartsSame(base: Source, stages: seq<Stage>, stages': seq<Stage>)
    requires SameJoins(stages, stages')
    ensures BaseParts(base, stages) == BaseParts(base, stages')
    decreases |stages|
  {
    hide OnPart;
    if stages != [] {
      assert stages[0].on == stages'[0].on;
      BasePartsSame(base, stages[1..], stages'[1..]);
    }
  }

  // ---- local conjuncts do not raise in the scans either ----

  lemma LocalTruth(w: World, srcs: seq<Source>, tables: seq<seq<Row>>, cs: seq<Expr>, c: Expr, k: nat, r: Row)
    requires AllTruth(w, srcs, tables, cs) && c in cs && ClearAll(srcs, cs) && Distinct(srcs)
    requires k < |srcs| <= |tables| && Local(c, srcs[k]) && r in tables[k]
    ensures TruthIn(w, [srcs[k]], [r], c)
  {
    var row: Joined := seq(|srcs|, i requires 0 <= i < |srcs| => if i == k then r else Nulls(|srcs[i].columns|));
    assert Fits(srcs, tables, row);
    assert AllTruths(w, srcs, row, cs);
    var i :| 0 <= i < |cs| && cs[i] == c;
    assert Clear(srcs, cs[i]) && TruthIn(w, srcs, row, cs[i]);
    hide Eval, Local, Clear;
    LocalValue(w, srcs, row, k, c);
  }

  lemma {:induction false} WherePartIn(cs: seq<Expr>, base: Source, stages: seq<Stage>, at: Option<nat>, i: nat)
    requires i < |WherePart(cs, base, stages, at)|
    ensures var c := WherePart(cs, base, stages, at)[i]; c in cs && PlaceOf(c, base, stages) == at
    decreases |cs|
  {
    hide PlaceOf;
    if cs != [] {
      var rest := WherePart(cs[1..], base, stages, at);
      if PlaceOf(cs[0], base, stages) == at {
        if i > 0 { WherePartIn(cs[1..], base, stages, at, i - 1); }
      } else {
        WherePartIn(cs[1..], base, stages, at, i);
      }
    }
  }

  lemma {:induction false} OnPartIn(on: seq<Expr>, kind: Kind, src: Source, base: Source, side: Side, i: nat)
    requires i < |OnPart(on, kind, src, base, side)|
    ensures var c := OnPart(on, kind, src, base, side)[i]; c in on && SideOf(c, kind, src, base) == side
    decreases |on|
  {
    hide SideOf;
    if on != [] {
      if SideOf(on[0], kind, src, base) == side {
        if i > 0 { OnPartIn(on[1..], kind, src, base, side, i - 1); }
      } else {
        OnPartIn(on[1..], kind, src, base, side, i);
      }
    }
  }

  /** WHERE conjuncts in the scan of table `k`. */
  lemma WherePartTruth(w: World, q: Select, tables: seq<Data>, k: nat, r: Row)
    requires |tables| == 1 + |q.joins| && Sound(w, q, tables) && k < |tables| && r in RowSets(tables)[k]
    ensures var srcs := AllSources([q.base], Stages(q, tables));
      |srcs| == |tables| && AllTruths(w, [srcs[k]], [r], WherePart(WhereOf(q), q.base, Stages(q, tables), Some(k)))
  {
    var stages := Stages(q, tables);
    var srcs, cs := AllSources([q.base], stages), WherePart(WhereOf(q), q.base, stages, Some(k));
    AllSourcesAt([q.base], stages);
    hide Local, AllTruth, TotalOn, Ready, Distinct, ClearAll, Keyed, TruthIn, AllSources;
    forall i | 0 <= i < |cs| ensures TruthIn(w, [srcs[k]], [r], cs[i]) {
      WherePartIn(WhereOf(q), q.base, stages, Some(k), i);
      assert k > 0 ==> srcs[k] == stages[k - 1].src;
      assert Local(cs[i], srcs[k]);
      LocalTruth(w, srcs, RowSets(tables), WhereOf(q), cs[i], k, r);
    }
  }

  /** ON conjuncts in the base scan. */
  lemma {:induction false} BasePartsTruth(w: World, srcs: seq<Source>, tables: seq<seq<Row>>, stages: seq<Stage>,
                                          r: Row)
    requires srcs != [] && Ready(srcs, stages) && TotalOn(w, srcs, tables, stages)
    requires |tables| == |srcs| + |stages| && r in tables[0]
    ensures AllTruths(w, [srcs[0]], [r], BaseParts(srcs[0], stages))
    decreases |stages|
  {
    if stages != [] {
      var s := stages[0];
      var srcs1, mine := srcs + [s.src], OnPart(s.on, s.kind, s.src, srcs[0], BaseSide);
      assert Distinct(srcs1) by { assert Ready(srcs1, stages[1..]); }
      BasePartsTruth(w, srcs1, tables, stages[1..], r);
      hide Local, AllTruth, TotalOn, Ready, Distinct, ClearAll, TruthIn, OnPart;
      forall i | 0 <= i < |mine| ensures TruthIn(w, [srcs[0]], [r], mine[i]) {
        OnPartIn(s.on, s.kind, s.src, srcs[0], BaseSide, i);
        assert Local(mine[i], srcs1[0]);
        LocalTruth(w, srcs1, tables, s.on, mine[i], 0, r);
      }
      AllTruthsConcat(w, [srcs[0]], [r], mine, BaseParts(srcs[0], stages[1..]));
    }
  }

  lemma OnPartTotal(w: World, srcs: seq<Source>, tables: seq<seq<Row>>, on: seq<Expr>, kind: Kind, src: Source,
                    base: Source, side: Side)
    requires AllTruth(w, srcs, tables, on)
    ensures AllTruth(w, srcs, tables, OnPart(on, kind, src, base, side))
  {
    var part := OnPart(on, kind, src, base, side);
    forall row | Fits(srcs, tables, row) ensures AllTruths(w, srcs, row, part) {
      assert AllTruths(w, srcs, row, on);
      forall i | 0 <= i < |part| ensures TruthIn(w, srcs, row, part[i]) {
        OnPartIn(on, kind, src, base, side, i);
        var k :| 0 <= k < |on| && on[k] == part[i];
      }
    }
  }

  lemma {:induction false} BuiltTotal(w: World, srcs: seq<Source>, tables: seq<seq<Row>>, base: Source,
                                      stages: seq<Stage>, parts: seq<seq<Expr>>)
    requires TotalOn(w, srcs, tables, stages) && |parts| == |stages|
    ensures |BuiltAll(base, stages)| == |stages|
    ensures TotalOn(w, srcs, tables, WithParts(BuiltAll(base, stages), parts))
    decreases |stages|
  {
    if stages != [] {
      var s := stages[0];
      OnPartTotal(w, srcs + [s.src], tables, s.on, s.kind, s.src, base, BothSides);
      BuiltTotal(w, srcs + [s.src], tables, base, stages[1..], parts[1..]);
      assert WithParts(BuiltAll(base, stages), parts)[1..] == WithParts(BuiltAll(base, stages[1..]), parts[1..]);
      hide AllTruth, OnPart;
    }
  }

  lemma {:induction false} BuiltAt(base: Source, stages: seq<Stage>, i: nat)
    requires i < |stages|
    ensures |BuiltAll(base, stages)| == |stages|
    ensures BuiltAll(base, stages)[i] ==
              stages[i].(on := OnPart(stages[i].on, stages[i].kind, stages[i].src, base, BothSides))
    decreases |stages|
  {
    hide OnPart;
    if stages[1..] != [] {
      BuiltAt(base, stages[1..], if i > 0 then i - 1 else 0);
    }
  }

  // ---- the executor against the query ----

  /** The stages the executor carries out for a query. */
  function Carried(q: Select, tables: seq<Data>): seq<Stage>
    requires |tables| == 1 + |q.joins|
  {
    WithoutRightParts(q.base, Stages(q, tables));
    WithParts(BuiltAll(q.base, Stages(q, tables)), WhereParts(WhereOf(q), q.base, Stages(q, tables)))
  }

  /** Everything pushed into the base scan. */
  function AtBase(q: Select, tables: seq<Data>): seq<Expr>
    requires |tables| == 1 + |q.joins|
  {
    WherePart(WhereOf(q), q.base, Stages(q, tables), Some(0)) + BaseParts(q.base, Stages(q, tables))
  }

  lemma ShapeSame(q: Select, tables: seq<Data>)
    requires |tables| == 1 + |q.joins|
    ensures SameJoins(Shape(q.joins), Stages(q, tables)) && |Stages(q, tables)| == |q.joins|
  {
  }

  lemma SourcesSame(q: Select, tables: seq<Data>)
    requires |tables| == 1 + |q.joins|
    ensures AllSources([q.base], Stages(q, tables)) == SourcesOf(q)
  {
    AllSourcesAt([q.base], Stages(q, tables));
    var a, b := AllSources([q.base], Stages(q, tables)), SourcesOf(q);
    forall i | 0 <= i < |a| ensures a[i] == b[i] {
      if i > 0 { assert a[1 + (i - 1)] == Stages(q, tables)[i - 1].src; }
    }
  }

  lemma RowSetsAt(tables: seq<Data>, k: nat, i: nat)
    requires k < |tables| && i < |tables[k].entries|
    ensures tables[k].entries[i].1 in RowSets(tables)[k]
  {
    assert RowSets(tables)[k][i] == tables[k].entries[i].1;
  }

  lemma RightScanTruth(w: World, q: Select, tables: seq<Data>, i: nat, t: Data, src: Source, part: seq<Expr>)
    requires |tables| == 1 + |q.joins| && Sound(w, q, tables) && i < |q.joins| && t == tables[i + 1]
    requires src == q.joins[i].src && part == WherePart(WhereOf(q), q.base, Stages(q, tables), Some(i + 1))
    ensures forall n :: 0 <= n < |t.entries| ==> AllTruths(w, [src], [t.entries[n].1], part)
  {
    var stages := Stages(q, tables);
    AllSourcesAt([q.base], stages);
    assert AllSources([q.base], stages)[1 + i] == stages[i].src == q.joins[i].src;
    hide AllTruths, Sound, WherePart, AllSources;
    forall n | 0 <= n < |t.entries| ensures AllTruths(w, [src], [t.entries[n].1], part) {
      RowSetsAt(tables, i + 1, n);
      WherePartTruth(w, q, tables, i + 1, t.entries[n].1);
    }
  }

  lemma CarriedAt(q: Select, tables: seq<Data>, i: nat)
    requires |tables| == 1 + |q.joins| && i < |q.joins|
    ensures |Carried(q, tables)| == |q.joins|
    ensures Carried(q, tables)[i] ==
              Stage(q.joins[i].kind, q.joins[i].src, RowsOf(tables[i + 1].entries),
                    WherePart(WhereOf(q), q.base, Stages(q, tables), Some(i + 1)),
                    OnPart(Split(q.joins[i].on), q.joins[i].kind, q.joins[i].src, q.base, BothSides))
  {
    var stages := Stages(q, tables);
    WithoutRightParts(q.base, stages);
    BuiltAt(q.base, stages, i);
    hide OnPart, Split, WherePart, RowsOf;
    assert stages[i] == Stage(q.joins[i].kind, q.joins[i].src, RowsOf(tables[i + 1].entries), [], Split(q.joins[i].on));
  }

  lemma JoinCarried(w: World, q: Select, tables: seq<Data>, i: nat)
    requires |tables| == 1 + |q.joins| && Sound(w, q, tables) && i < |q.joins|
    ensures |Carried(q, tables)| == |q.joins| && Carries(w, JoinPlanOf(q, i), tables[i + 1], Carried(q, tables)[i])
  {
    var j, stages, t := q.joins[i], Stages(q, tables), tables[i + 1];
    var part := WherePart(WhereOf(q), q.base, stages, Some(i + 1));
    RightScanTruth(w, q, tables, i, t, j.src, part);
    assert Keyed(j.src, t);
    ShapeSame(q, tables);
    CarriedAt(q, tables, i);
    hide Scan, KeepRows, AnyPart, WherePart, OnPart, Split, AllTruths, Keyed, Sound, Stages, Shape, Carried, RowsOf;
    WherePlaced(q, stages, Some(i + 1));
    ScanIsKeep(w, j.src, part, t);
  }

  lemma BaseScanned(w: World, q: Select, tables: seq<Data>)
    requires |tables| == 1 + |q.joins| && Sound(w, q, tables)
    requires q.filter.Some? || BaseParts(q.base, Shape(q.joins)) == []
    ensures Scan(w, PlanOf(q).base, tables[0])
         == Done(KeepRows(w, q.base, AtBase(q, tables), RowsOf(tables[0].entries)))
  {
    var stages, t := Stages(q, tables), tables[0];
    var part, bases := WherePart(WhereOf(q), q.base, stages, Some(0)), BaseParts(q.base, stages);
    ShapeSame(q, tables);
    BasePartsSame(q.base, Shape(q.joins), stages);
    WherePlaced(q, stages, Some(0));
    AllSourcesAt([q.base], stages);
    forall n | 0 <= n < |t.entries| ensures AllTruths(w, [q.base], [t.entries[n].1], part + bases) {
      RowSetsAt(tables, 0, n);
      WherePartTruth(w, q, tables, 0, t.entries[n].1);
      BasePartsTruth(w, [q.base], RowSets(tables), stages, t.entries[n].1);
      AllTruthsConcat(w, [q.base], [t.entries[n].1], part, bases);
    }
    ScanIsKeep(w, q.base, part + bases, t);
    SomesConcat(part, bases);
    hide KeepRows, AnyPart, WherePart, BaseParts, Split, AllTruths, Keyed, Sound, Accepted;
    if q.filter.None? {
      assert part == [] && [None] + Somes(bases) == [None];
      NoneScan(w, q.base, t);
    }
  }

  lemma NoneScan(w: World, src: Source, t: Data)
    ensures Scan(w, ScanPlan(src, [None]), t) == Scan(w, ScanPlan(src, []), t)
  {
    var one: seq<Option<Expr>> := [None];
    assert one[1..] == [];
    hide Accepted;
  }

  /** What a SELECT returns: the rows of the query with the ON conjuncts local to
      right tables struck out, whatever plan the conjuncts and keys lead to. */
  lemma SelectReturns(w: World, q: Select, tables: seq<Data>)
    requires |tables| == 1 + |q.joins| && Sound(w, q, tables)
    requires q.filter.Some? || BaseParts(q.base, Shape(q.joins)) == []
    ensures SelectRows(w, q, tables)
         == Done(Plain(w, q.base, WithoutRight(Stages(q, tables)), WhereOf(q), RowsOf(tables[0].entries)))
  {
    SelectIsBuilt(w, q, tables);
    hide SelectRows, Plain, AsBuilt, TotalOn, AllTruth, Keyed, Ready, Distinct, ClearAll;
    AsBuiltDropsOn(w, q.base, Stages(q, tables), WhereOf(q), RowsOf(tables[0].entries));
  }

  lemma SelectIsBuilt(w: World, q: Select, tables: seq<Data>)
    requires |tables| == 1 + |q.joins| && Sound(w, q, tables)
    requires q.filter.Some? || BaseParts(q.base, Shape(q.joins)) == []
    ensures SelectRows(w, q, tables)
         == Done(AsBuilt(w, q.base, Stages(q, tables), WhereOf(q), RowsOf(tables[0].entries)))
  {
    var stages, carried, sets := Stages(q, tables), Carried(q, tables), RowSets(tables);
    var ls := Singles(KeepRows(w, q.base, AtBase(q, tables), RowsOf(tables[0].entries)));
    BaseScanned(w, q, tables);
    JoinedRows(w, q, tables, ls);
    ResidualKept(w, q, tables, Pipe(w, [q.base], ls, carried));
    SourcesSame(q, tables);
    hide Scan, TryJoins, TryKeep, Keep, Pipe, KeepRows, Combine, Sound, BuiltAll, WithParts, WhereParts, WherePart,
         BaseParts, AllSources, SourcesOf, AllFit, Singles;
  }

  lemma BaseRowsFit(w: World, q: Select, tables: seq<Data>)
    requires |tables| == 1 + |q.joins|
    ensures AllFit([q.base], RowSets(tables),
                   Singles(KeepRows(w, q.base, AtBase(q, tables), RowsOf(tables[0].entries))))
  {
    var rows := KeepRows(w, q.base, AtBase(q, tables), RowsOf(tables[0].entries));
    forall r | r in rows ensures r in RowSets(tables)[0] {
      KeepRowsIn(w, q.base, AtBase(q, tables), RowsOf(tables[0].entries), r);
    }
    SinglesFit(q.base, RowSets(tables), rows);
  }

  lemma {:induction false} SinglesFit(src: Source, tables: seq<seq<Row>>, rows: seq<Row>)
    requires |tables| > 0 && forall r :: r in rows ==> r in tables[0]
    ensures AllFit([src], tables, Singles(rows))
    decreases |rows|
  {
    if rows != [] {
      SinglesFit(src, tables, rows[1..]);
      assert Fits([src], tables, [rows[0]]);
      hide Fits;
    }
  }

  lemma JoinedRows(w: World, q: Select, tables: seq<Data>, ls: seq<Joined>)
    requires |tables| == 1 + |q.joins| && Sound(w, q, tables)
    requires ls == Singles(KeepRows(w, q.base, AtBase(q, tables), RowsOf(tables[0].entries)))
    ensures |PlanOf(q).joins| == |q.joins|
    ensures TryJoins(w, [q.base], ls, PlanOf(q).joins, tables[1..]) == Done(Pipe(w, [q.base], ls, Carried(q, tables)))
    ensures AllFit(SourcesOf(q), RowSets(tables), Pipe(w, [q.base], ls, Carried(q, tables)))
  {
    var stages, carried, sets := Stages(q, tables), Carried(q, tables), RowSets(tables);
    var joins := PlanOf(q).joins;
    PlanJoins(q);
    WithoutRightParts(q.base, stages);
    BuiltTotal(w, [q.base], sets, q.base, stages, WhereParts(WhereOf(q), q.base, stages));
    forall i | 0 <= i < |q.joins|
      ensures Carries(w, joins[i], tables[1..][i], carried[i]) && carried[i].rows == sets[1 + i]
    {
      JoinCarried(w, q, tables, i);
      assert joins[i] == JoinPlanOf(q, i);
      BuiltAt(q.base, stages, i);
    }
    BaseRowsFit(w, q, tables);
    CarriedSources(q, tables);
    hide PlanOf, Carries, Sound, TotalOn, AllFit, Singles, KeepRows, WhereParts, BuiltAll, WithParts, AllTruth;
    JoinsDone(w, [q.base], sets, ls, joins, tables[1..], carried);
  }

  lemma CarriedSources(q: Select, tables: seq<Data>)
    requires |tables| == 1 + |q.joins|
    ensures AllSources([q.base], Carried(q, tables)) == SourcesOf(q)
    ensures |Carried(q, tables)| == |q.joins|
  {
    WithoutRightParts(q.base, Stages(q, tables));
    assert SameTables(Stages(q, tables), Carried(q, tables));
    SameSources([q.base], Stages(q, tables), Carried(q, tables));
    SourcesSame(q, tables);
  }

  lemma ResidualKept(w: World, q: Select, tables: seq<Data>, js: seq<Joined>)
    requires |tables| == 1 + |q.joins| && Sound(w, q, tables) && AllFit(SourcesOf(q), RowSets(tables), js)
    ensures TryKeep(w, SourcesOf(q), Combine(PlanOf(q).residual), js)
         == Done(Keep(w, SourcesOf(q), WherePart(WhereOf(q), q.base, Stages(q, tables), None), js))
  {
    var part := WherePart(WhereOf(q), q.base, Stages(q, tables), None);
    ShapeSame(q, tables);
    WherePlaced(q, Stages(q, tables), None);
    SourcesSame(q, tables);
    WherePartTotal(w, SourcesOf(q), RowSets(tables), WhereOf(q), q.base, Stages(q, tables), None);
    hide AnyPart, WherePart, AllTruth, Combine, SplitWhere, Sound, AllFit, SourcesOf;
    CombineSomes(part);
    KeepDone(w, SourcesOf(q), RowSets(tables), part, js);
  }

  lemma WherePartTotal(w: World, srcs: seq<Source>, tables: seq<seq<Row>>, cs: seq<Expr>, base: Source,
                       stages: seq<Stage>, at: Option<nat>)
    requires AllTruth(w, srcs, tables, cs)
    ensures AllTruth(w, srcs, tables, WherePart(cs, base, stages, at))
  {
    var part := WherePart(cs, base, stages, at);
    forall row | Fits(srcs, tables, row) ensures AllTruths(w, srcs, row, part) {
      assert AllTruths(w, srcs, row, cs);
      forall i | 0 <= i < |part| ensures TruthIn(w, srcs, row, part[i]) {
        WherePartIn(cs, base, stages, at, i);
        var k :| 0 <= k < |cs| && cs[k] == part[i];
      }
    }
  }

  // ---- the query as written ----

  /** Each ON and the WHERE evaluated whole. */
  function WholeStages(q: Select, tables: seq<Data>): seq<Stage>
    requires |tables| == 1 + |q.joins|
  {
    seq(|q.joins|, i requires 0 <= i < |q.joins| =>
      Stage(q.joins[i].kind, q.joins[i].src, RowsOf(tables[i + 1].entries), [], [q.joins[i].on]))
  }

  /** The meaning of a SELECT before projection: join the unfiltered tables with the
      whole ON clauses, then apply the whole WHERE. */
  function Reference(w: World, q: Select, tables: seq<Data>): seq<Joined>
    requires |tables| == 1 + |q.joins|
  {
    Plain(w, q.base, WholeStages(q, tables), if q.filter.None? then [] else [q.filter.value], RowsOf(tables[0].entries))
  }

  lemma WholeHolds(w: World, srcs: seq<Source>, row: Joined, e: Expr)
    requires AllTruths(w, srcs, row, Split(e))
    ensures All(w, srcs, row, [e]) <==> All(w, srcs, row, Split(e))
  {
    SplitHolds(w, srcs, row, e);
    assert All(w, srcs, row, [e]) <==> Holds(w, srcs, row, [e][0]);
  }

  lemma {:induction false} MatchesWhole(w: World, srcs: seq<Source>, l: Joined, rows: seq<Row>, e: Expr)
    requires forall i :: 0 <= i < |rows| ==> AllTruths(w, srcs, l + [rows[i]], Split(e))
    ensures Matches(w, srcs, l, rows, [e]) == Matches(w, srcs, l, rows, Split(e))
    decreases |rows|
  {
    if rows != [] {
      WholeHolds(w, srcs, l + [rows[0]], e);
      forall i | 0 <= i < |rows[1..]| ensures AllTruths(w, srcs, l + [rows[1..][i]], Split(e)) {
        assert rows[1..][i] == rows[i + 1];
      }
      hide All, AllTruths, Split;
      MatchesWhole(w, srcs, l, rows[1..], e);
    }
  }

  lemma {:induction false} JoinWhole(w: World, srcs: seq<Source>, tables: seq<seq<Row>>, src: Source, ls: seq<Joined>,
                                     rows: seq<Row>,
                                     e: Expr, kind: Kind)
    requires AllFit(srcs, tables, ls) && |srcs| < |tables| && forall r :: r in rows ==> r in tables[|srcs|]
    requires AllTruth(w, srcs + [src], tables, Split(e))
    ensures Join(w, srcs + [src], ls, rows, [e], kind, |src.columns|)
         == Join(w, srcs + [src], ls, rows, Split(e), kind, |src.columns|)
    decreases |ls|
  {
    if ls != [] {
      assert Fits(srcs, tables, ls[0]);
      forall i | 0 <= i < |rows| ensures AllTruths(w, srcs + [src], ls[0] + [rows[i]], Split(e)) {
        FitsLonger(srcs, src, tables, ls[0], rows[i]);
      }
      hide AllTruths, Fits, Matches, Nulls, Split, AllTruth;
      MatchesWhole(w, srcs + [src], ls[0], rows, e);
      assert AllFit(srcs, tables, ls[1..]);
      JoinWhole(w, srcs, tables, src, ls[1..], rows, e, kind);
    }
  }

  /** `whole` has the predicates that `split` has in parts. */
  predicate SplitsOf(whole: seq<Stage>, split: seq<Stage>) {
    |whole| == |split| && forall i :: 0 <= i < |whole| ==>
      |whole[i].on| == 1 && split[i] == whole[i].(on := Split(whole[i].on[0]))
  }

  lemma {:induction false} PipeWhole(w: World, srcs: seq<Source>, tables: seq<seq<Row>>, ls: seq<Joined>,
                                     whole: seq<Stage>, split: seq<Stage>)
    requires SplitsOf(whole, split) && |tables| == |srcs| + |split|
    requires forall i :: 0 <= i < |split| ==> split[i].rows == tables[|srcs| + i]
    requires TotalOn(w, srcs, tables, split) && AllFit(srcs, tables, ls)
    ensures Pipe(w, srcs, ls, whole) == Pipe(w, srcs, ls, split)
    ensures AllFit(AllSources(srcs, split), tables, Pipe(w, srcs, ls, split))
    decreases |split|
  {
    if split != [] {
      var s, t := split[0], whole[0];
      var rows := KeepRows(w, s.src, s.pushed, s.rows);
      assert s.rows == tables[|srcs| + 0] && t.on == [t.on[0]];
      forall r | r in rows ensures r in tables[|srcs|] { KeepRowsIn(w, s.src, s.pushed, s.rows, r); }
      JoinWhole(w, srcs, tables, s.src, ls, rows, t.on[0], s.kind);
      JoinFits(w, srcs, tables, s.src, ls, rows, s.on, s.kind);
      forall i | 0 <= i < |split| - 1 ensures split[1..][i].rows == tables[|srcs| + 1 + i] {
        assert split[1..][i] == split[i + 1] && split[i + 1].rows == tables[|srcs| + (i + 1)];
      }
      hide Join, KeepRows, Fits, AllTruth, Split;
      assert JoinStage(w, srcs, ls, s) == JoinStage(w, srcs, ls, t);
      PipeWhole(w, srcs + [s.src], tables, JoinStage(w, srcs, ls, s), whole[1..], split[1..]);
    }
  }

  lemma {:induction false} KeepWhole(w: World, srcs: seq<Source>, tables: seq<seq<Row>>, e: Expr, js: seq<Joined>)
    requires AllFit(srcs, tables, js) && AllTruth(w, srcs, tables, Split(e))
    ensures Keep(w, srcs, [e], js) == Keep(w, srcs, Split(e), js)
    decreases |js|
  {
    if js != [] {
      assert Fits(srcs, tables, js[0]);
      WholeHolds(w, srcs, js[0], e);
      assert AllFit(srcs, tables, js[1..]);
      hide Fits, All, AllTruths, AllTruth, Split;
      KeepWhole(w, srcs, tables, e, js[1..]);
    }
  }

  lemma {:induction false} RowsFit(src: Source, tables: seq<Data>)
    requires |tables| > 0
    ensures AllFit([src], RowSets(tables), Singles(RowsOf(tables[0].entries)))
  {
    forall r | r in RowsOf(tables[0].entries) ensures r in RowSets(tables)[0] {}
    SinglesFit(src, RowSets(tables), RowsOf(tables[0].entries));
  }

  lemma ReferenceSplit(w: World, q: Select, tables: seq<Data>)
    requires |tables| == 1 + |q.joins| && Sound(w, q, tables)
    ensures Reference(w, q, tables) == Plain(w, q.base, Stages(q, tables), WhereOf(q), RowsOf(tables[0].entries))
  {
    var whole, split, sets := WholeStages(q, tables), Stages(q, tables), RowSets(tables);
    var ls := Singles(RowsOf(tables[0].entries));
    RowsFit(q.base, tables);
    assert SplitsOf(whole, split);
    SameSources([q.base], split, whole);
    forall i | 0 <= i < |split| ensures split[i].rows == sets[1 + i] {}
    PipeWhole(w, [q.base], sets, ls, whole, split);
    hide Pipe, Keep, Singles, RowsOf, AllFit, TotalOn, AllTruth, AllSources, Stages, WholeStages, Ready, Distinct,
         ClearAll, Keyed, Split;
    if q.filter.Some? {
      KeepWhole(w, AllSources([q.base], split), sets, q.filter.value, Pipe(w, [q.base], ls, split));
    }
  }

  /** Pushdown as the planner means it, with the conjuncts it sets aside applied in
      the right scans, keeps the meaning of every query. */
  lemma PushdownKeepsMeaning(w: World, q: Select, tables: seq<Data>)
    requires |tables| == 1 + |q.joins| && Sound(w, q, tables)
    ensures PushedDown(w, q.base, Stages(q, tables), WhereOf(q), RowsOf(tables[0].entries)) == Reference(w, q, tables)
  {
    ReferenceSplit(w, q, tables);
    hide PushedDown, Plain, Reference, TotalOn, AllTruth, Keyed, Ready, Distinct, ClearAll;
    PushdownPreserves(w, q.base, Stages(q, tables), WhereOf(q), RowsOf(tables[0].entries));
  }

  /** No ON has a conjunct local to its right table. */
  predicate NothingAside(q: Select) {
    forall i, k :: 0 <= i < |q.joins| && 0 <= k < |Split(q.joins[i].on)| ==>
      !Local(Split(q.joins[i].on)[k], q.joins[i].src)
  }

  lemma {:induction false} NotRightAll(on: seq<Expr>, src: Source)
    requires forall k :: 0 <= k < |on| ==> !Local(on[k], src)
    ensures NotRight(on, src) == on
    decreases |on|
  {
    hide Local;
    if on != [] { NotRightAll(on[1..], src); }
  }

  lemma {:induction false} WithoutRightAll(stages: seq<Stage>)
    requires forall i, k :: 0 <= i < |stages| && 0 <= k < |stages[i].on| ==> !Local(stages[i].on[k], stages[i].src)
    ensures WithoutRight(stages) == stages
    decreases |stages|
  {
    hide Local;
    if stages != [] {
      NotRightAll(stages[0].on, stages[0].src);
      WithoutRightAll(stages[1..]);
    }
  }

  /** A SELECT returns exactly the rows of its meaning when the planner sets nothing
      aside. */
  lemma SelectIsReference(w: World, q: Select, tables: seq<Data>)
    requires |tables| == 1 + |q.joins| && Sound(w, q, tables) && NothingAside(q)
    requires q.filter.Some? || BaseParts(q.base, Shape(q.joins)) == []
    ensures SelectRows(w, q, tables) == Done(Reference(w, q, tables))
  {
    var stages := Stages(q, tables);
    assert forall i, k :: 0 <= i < |stages| && 0 <= k < |stages[i].on| ==> !Local(stages[i].on[k], stages[i].src);
    hide Local, SelectRows, Plain, Reference, TotalOn, AllTruth, Keyed, Ready, Distinct, ClearAll, Split;
    WithoutRightAll(stages);
    SelectReturns(w, q, tables);
    ReferenceSplit(w, q, tables);
  }

  // ---- an absent WHERE ----

  lemma {:induction false} EmptyJoins(w: World, srcs: seq<Source>, joins: seq<JoinPlan>, tables: seq<Data>)
    requires |joins| == |tables| && forall i :: 0 <= i < |joins| ==> joins[i].scan.pushed == []
    ensures TryJoins(w, srcs, [], joins, tables) == Done([])
    decreases |joins|
  {
    if joins != [] {
      var j := joins[0];
      EverythingAccepted(w, j.scan.src, Candidates(w, [], j.scan.src, tables[0]));
      EmptyJoins(w, srcs + [j.scan.src], joins[1..], tables[1..]);
    }
  }

  lemma {:induction false} EverythingAccepted(w: World, src: Source, entries: seq<(Value, Row)>)
    ensures Accepted(w, src, Always, entries).Done?
    decreases |entries|
  {
    if entries != [] { EverythingAccepted(w, src, entries[1..]); }
  }

  /** Without a WHERE, an INNER JOIN whose ON has a conjunct local to the base table
      raises as soon as the base scan has a row to look at, and only then. */
  lemma AbsentWhereRaisesExactly(w: World, q: Select, tables: seq<Data>)
    requires |tables| == 1 + |q.joins|
    requires q.filter.None? && BaseParts(q.base, Shape(q.joins)) != []
    ensures SelectRows(w, q, tables) == Fail <==> Candidates(w, PlanOf(q).base.pushed, q.base, tables[0]) != []
  {
    var pushed, bases := PlanOf(q).base.pushed, BaseParts(q.base, Shape(q.joins));
    WherePlaced(q, Shape(q.joins), Some(0));
    assert pushed == [None] + Somes(bases);
    assert Combine(pushed) == Broken by { assert pushed[0].None? && |pushed| > 1; }
    var entries := Candidates(w, pushed, q.base, tables[0]);
    PlanJoins(q);
    forall i | 0 <= i < |q.joins| ensures PlanOf(q).joins[i].scan.pushed == [] {
      WherePlaced(q, Shape(q.joins), Some(i + 1));
    }
    WherePlaced(q, Shape(q.joins), None);
    assert PlanOf(q).residual == [];
    hide Candidates, Combine, PlanOf, AnyPart, Somes, BaseParts;
    if entries == [] {
      EmptyJoins(w, [q.base], PlanOf(q).joins, tables[1..]);
      assert RowsOf([]) == [];
    }
  }
}
