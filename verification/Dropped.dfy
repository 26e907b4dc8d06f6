/** What it costs that the executor never applies the ON conjuncts local to a right
    table: exactly when a SELECT still returns what the query means. */
module Dropped {
  import opened Basics
  import opened Expressions
  import opened Planner
  import opened Executor
  import opened Pushdown

  // ---- joined rows as combinations ----

  function Scanned(w: World, s: Stage): seq<Row> {
    KeepRows(w, s.src, s.pushed, s.rows)
  }

  /** What can stand in the place of a right table: its rows, NULLs in a LEFT JOIN. */
  function Choices(w: World, s: Stage): seq<Row> {
    Scanned(w, s) + if s.kind == LeftOuter then [Nulls(|s.src.columns|)] else []
  }

  /** `r` may stand after the joined row `l`: it passes the ON, or it is the padding
      of a row that nothing matches. */
  predicate Follows(w: World, srcs: seq<Source>, l: Joined, s: Stage, r: Row) {
    if s.kind == LeftOuter && r == Nulls(|s.src.columns|) then
      forall t :: t in Scanned(w, s) ==> !All(w, srcs + [s.src], l + [t], s.on)
    else
      All(w, srcs + [s.src], l + [r], s.on)
  }

  /** Each right component of `x` may stand after the components before it. */
  predicate Admitted(w: World, srcs: seq<Source>, stages: seq<Stage>, x: Joined)
    requires |x| == |srcs| + |stages|
    decreases |stages|
  {
    stages != [] ==>
      && Follows(w, srcs, x[..|srcs|], stages[0], x[|srcs|])
      && Admitted(w, srcs + [stages[0].src], stages[1..], x)
  }

  /** One row of the base table and one choice for each right table. */
  predicate Combination(w: World, rows: seq<Row>, stages: seq<Stage>, x: Joined) {
    && |x| == 1 + |stages| && x[0] in rows
    && forall i :: 0 <= i < |stages| ==> x[1 + i] in Choices(w, stages[i])
  }

  /** No right table of a LEFT JOIN has a row of NULLs only. */
  predicate NoNullRows(w: World, stages: seq<Stage>) {
    forall i :: 0 <= i < |stages| && stages[i].kind == LeftOuter ==>
      Nulls(|stages[i].src.columns|) !in Scanned(w, stages[i])
  }

  // ---- the joins select among the combinations, in one fixed order ----

  function Extend(l: Joined, rs: seq<Row>): seq<Joined> {
    if rs == [] then [] else [l + [rs[0]]] + Extend(l, rs[1..])
  }

  function ExtendAll(ls: seq<Joined>, rs: seq<Row>): seq<Joined> {
    if ls == [] then [] else Extend(ls[0], rs) + ExtendAll(ls[1..], rs)
  }

  function Combos(w: World, ls: seq<Joined>, stages: seq<Stage>): seq<Joined>
    decreases |stages|
  {
    if stages == [] then ls else Combos(w, ExtendAll(ls, Choices(w, stages[0])), stages[1..])
  }

  ghost function Only(js: seq<Joined>, good: iset<Joined>): seq<Joined> {
    if js == [] then []
    else if js[0] in good then [js[0]] + Only(js[1..], good) else Only(js[1..], good)
  }

  ghost function Grown(w: World, srcs: seq<Source>, s: Stage, good: iset<Joined>): iset<Joined> {
    iset x: Joined | |x| == |srcs| + 1 && x[..|srcs|] in good && Follows(w, srcs, x[..|srcs|], s, x[|srcs|])
  }

  ghost function Through(w: World, srcs: seq<Source>, stages: seq<Stage>, good: iset<Joined>): iset<Joined> {
    iset x: Joined | |x| == |srcs| + |stages| && x[..|srcs|] in good && Admitted(w, srcs, stages, x)
  }

  lemma {:induction false} OnlyConcat(js: seq<Joined>, ks: seq<Joined>, good: iset<Joined>)
    ensures Only(js + ks, good) == Only(js, good) + Only(ks, good)
    decreases |js|
  {
    if js == [] {
      assert js + ks == ks;
    } else {
      assert (js + ks)[0] == js[0] && (js + ks)[1..] == js[1..] + ks;
      OnlyConcat(js[1..], ks, good);
    }
  }

  lemma {:induction false} OnlyMember(js: seq<Joined>, good: iset<Joined>, x: Joined)
    ensures x in Only(js, good) <==> x in js && x in good
  {
    if js != [] {
      OnlyMember(js[1..], good, x);
      assert x in js <==> x == js[0] || x in js[1..];
    }
  }

  lemma {:induction false} OnlySame(js: seq<Joined>, good: iset<Joined>, fine: iset<Joined>)
    requires forall x :: x in js ==> (x in good <==> x in fine)
    ensures Only(js, good) == Only(js, fine)
  {
    if js != [] {
      assert forall x :: x in js[1..] ==> x in js;
      OnlySame(js[1..], good, fine);
    }
  }

  lemma OnlyExactly(js: seq<Joined>, good: iset<Joined>, fine: iset<Joined>)
    ensures Only(js, good) == Only(js, fine) <==> forall x :: x in js ==> (x in good <==> x in fine)
  {
    if Only(js, good) == Only(js, fine) {
      forall x | x in js ensures x in good <==> x in fine {
        OnlyMember(js, good, x);
        OnlyMember(js, fine, x);
      }
    } else if forall x :: x in js ==> (x in good <==> x in fine) {
      OnlySame(js, good, fine);
    }
  }

  lemma {:induction false} ExtendConcat(l: Joined, rs: seq<Row>, ts: seq<Row>)
    ensures Extend(l, rs + ts) == Extend(l, rs) + Extend(l, ts)
    decreases |rs|
  {
    if rs == [] {
      assert rs + ts == ts;
    } else {
      assert (rs + ts)[0] == rs[0] && (rs + ts)[1..] == rs[1..] + ts;
      ExtendConcat(l, rs[1..], ts);
    }
  }

  lemma {:induction false} MatchesAreOnly(w: World, srcs: seq<Source>, l: Joined, s: Stage, rs: seq<Row>,
                                          good: iset<Joined>)
    requires |l| == |srcs| && l in good
    requires s.kind == LeftOuter ==> Nulls(|s.src.columns|) !in rs
    ensures Matches(w, srcs + [s.src], l, rs, s.on) == Only(Extend(l, rs), Grown(w, srcs, s, good))
  {
    if rs != [] {
      var x := l + [rs[0]];
      assert x[..|l|] == l && x[|l|] == rs[0];
      MatchesAreOnly(w, srcs, l, s, rs[1..], good);
      var rest := Extend(l, rs[1..]);
      assert ([x] + rest)[1..] == rest;
      assert Follows(w, srcs, l, s, rs[0]) <==> All(w, srcs + [s.src], x, s.on);
      hide All, Follows, Nulls;
    }
  }

  lemma {:induction false} MatchesNone(w: World, srcs: seq<Source>, l: Joined, rs: seq<Row>, on: seq<Expr>)
    ensures Matches(w, srcs, l, rs, on) == [] <==> forall t :: t in rs ==> !All(w, srcs, l + [t], on)
  {
    if rs != [] {
      MatchesNone(w, srcs, l, rs[1..], on);
      assert forall t :: t in rs <==> t == rs[0] || t in rs[1..];
      hide All;
    }
  }

  /** One left row. */
  lemma RowSelects(w: World, srcs: seq<Source>, l: Joined, s: Stage, good: iset<Joined>)
    requires |l| == |srcs| && l in good
    requires s.kind == LeftOuter ==> Nulls(|s.src.columns|) !in Scanned(w, s)
    ensures JoinRow(w, srcs + [s.src], l, Scanned(w, s), s.on, s.kind, |s.src.columns|)
         == Only(Extend(l, Choices(w, s)), Grown(w, srcs, s, good))
  {
    var rs, grown, pad := Scanned(w, s), Grown(w, srcs, s, good), Nulls(|s.src.columns|);
    MatchesAreOnly(w, srcs, l, s, rs, good);
    if s.kind == LeftOuter {
      var x := l + [pad];
      assert x[..|l|] == l && x[|l|] == pad;
      MatchesNone(w, srcs + [s.src], l, rs, s.on);
      assert x in grown <==> Matches(w, srcs + [s.src], l, rs, s.on) == [];
      ExtendConcat(l, rs, [pad]);
      OnlyConcat(Extend(l, rs), Extend(l, [pad]), grown);
      LastChoice(l, pad, grown);
    } else {
      assert Choices(w, s) == rs;
    }
    hide All, Matches, Scanned, Only, Extend, Nulls, Follows;
  }

  lemma LastChoice(l: Joined, r: Row, good: iset<Joined>)
    ensures Only(Extend(l, [r]), good) == if l + [r] in good then [l + [r]] else []
  {
    assert [r][1..] == [] && Extend(l, [r]) == [l + [r]] && [l + [r]][1..] == [];
  }

  lemma {:induction false} NoneGrows(w: World, srcs: seq<Source>, l: Joined, s: Stage, rs: seq<Row>, good: iset<Joined>)
    requires |l| == |srcs| && l !in good
    ensures Only(Extend(l, rs), Grown(w, srcs, s, good)) == []
  {
    if rs != [] {
      var rest := Extend(l, rs[1..]);
      assert (l + [rs[0]])[..|l|] == l && ([l + [rs[0]]] + rest)[1..] == rest;
      NoneGrows(w, srcs, l, s, rs[1..], good);
    }
  }

  lemma {:induction false} StageSelects(w: World, srcs: seq<Source>, ls: seq<Joined>, s: Stage, good: iset<Joined>)
    requires Wide(ls, |srcs|)
    requires s.kind == LeftOuter ==> Nulls(|s.src.columns|) !in Scanned(w, s)
    ensures JoinStage(w, srcs, Only(ls, good), s) == Only(ExtendAll(ls, Choices(w, s)), Grown(w, srcs, s, good))
    decreases |ls|
  {
    if ls != [] {
      var l, rest, grown := ls[0], Only(ls[1..], good), Grown(w, srcs, s, good);
      assert Wide(ls[1..], |srcs|);
      StageSelects(w, srcs, ls[1..], s, good);
      OnlyConcat(Extend(l, Choices(w, s)), ExtendAll(ls[1..], Choices(w, s)), grown);
      if l in good {
        RowSelects(w, srcs, l, s, good);
        assert ([l] + rest)[1..] == rest;
      } else {
        NoneGrows(w, srcs, l, s, Choices(w, s), good);
      }
      hide Extend, JoinRow, Choices, Grown, Nulls, Scanned;
    }
  }

  lemma {:induction false} ExtendWide(l: Joined, rs: seq<Row>)
    ensures Wide(Extend(l, rs), |l| + 1)
  {
    if rs != [] { ExtendWide(l, rs[1..]); }
  }

  lemma {:induction false} ExtendAllWide(ls: seq<Joined>, rs: seq<Row>, n: nat)
    requires Wide(ls, n)
    ensures Wide(ExtendAll(ls, rs), n + 1)
  {
    if ls != [] {
      ExtendWide(ls[0], rs);
      assert Wide(ls[1..], n);
      ExtendAllWide(ls[1..], rs, n);
    }
  }

  lemma ThroughStep(w: World, srcs: seq<Source>, stages: seq<Stage>, good: iset<Joined>)
    requires stages != []
    ensures Through(w, srcs + [stages[0].src], stages[1..], Grown(w, srcs, stages[0], good))
         == Through(w, srcs, stages, good)
  {
    var s, n := stages[0], |srcs|;
    var a, b := Through(w, srcs + [s.src], stages[1..], Grown(w, srcs, s, good)), Through(w, srcs, stages, good);
    forall x: Joined | |x| == n + |stages| ensures x in a <==> x in b {
      assert x[..n + 1][..n] == x[..n] && x[..n + 1][n] == x[n];
      hide Follows;
    }
  }

  lemma {:induction false} PipeSelects(w: World, srcs: seq<Source>, ls: seq<Joined>, stages: seq<Stage>,
                                       good: iset<Joined>)
    requires Wide(ls, |srcs|) && NoNullRows(w, stages)
    ensures Pipe(w, srcs, Only(ls, good), stages) == Only(Combos(w, ls, stages), Through(w, srcs, stages, good))
    decreases |stages|
  {
    if stages == [] {
      forall x | x in ls ensures x in good <==> x in Through(w, srcs, stages, good) {
        assert x[..|srcs|] == x;
      }
      OnlySame(ls, good, Through(w, srcs, stages, good));
    } else {
      var s := stages[0];
      assert NoNullRows(w, stages[1..]);
      StageSelects(w, srcs, ls, s, good);
      ExtendAllWide(ls, Choices(w, s), |srcs|);
      PipeSelects(w, srcs + [s.src], ExtendAll(ls, Choices(w, s)), stages[1..], Grown(w, srcs, s, good));
      ThroughStep(w, srcs, stages, good);
      hide Only, Through, Grown, JoinStage, ExtendAll, Choices, Wide, Nulls, Scanned;
    }
  }

  lemma {:induction false} KeepSelects(w: World, srcs: seq<Source>, cs: seq<Expr>, js: seq<Joined>, good: iset<Joined>)
    ensures Keep(w, srcs, cs, Only(js, good)) == Only(js, iset x: Joined | x in good && All(w, srcs, x, cs))
  {
    if js != [] {
      KeepSelects(w, srcs, cs, js[1..], good);
      var rest := Only(js[1..], good);
      assert ([js[0]] + rest)[1..] == rest;
      hide All;
    }
  }

  lemma {:induction false} ExtendMember(l: Joined, rs: seq<Row>, x: Joined)
    ensures x in Extend(l, rs) <==> |x| == |l| + 1 && x[..|l|] == l && x[|l|] in rs
  {
    if rs != [] {
      ExtendMember(l, rs[1..], x);
      assert (l + [rs[0]])[..|l|] == l;
      assert |x| == |l| + 1 ==> x == x[..|l|] + [x[|l|]];
    }
  }

  lemma {:induction false} ExtendAllMember(ls: seq<Joined>, rs: seq<Row>, x: Joined, n: nat)
    requires Wide(ls, n)
    ensures x in ExtendAll(ls, rs) <==> |x| == n + 1 && x[..n] in ls && x[n] in rs
  {
    if ls != [] {
      assert Wide(ls[1..], n);
      ExtendAllMember(ls[1..], rs, x, n);
      ExtendMember(ls[0], rs, x);
    }
  }

  predicate Chosen(w: World, ls: seq<Joined>, n: nat, stages: seq<Stage>, x: Joined) {
    && |x| == n + |stages| && x[..n] in ls
    && forall i :: 0 <= i < |stages| ==> x[n + i] in Choices(w, stages[i])
  }

  lemma ChoicesStep(w: World, n: nat, stages: seq<Stage>, x: Joined)
    requires stages != [] && |x| == n + |stages|
    ensures (forall i :: 0 <= i < |stages| ==> x[n + i] in Choices(w, stages[i]))
       <==> && x[n] in Choices(w, stages[0])
            && forall i :: 0 <= i < |stages| - 1 ==> x[n + 1 + i] in Choices(w, stages[1..][i])
  {
    hide Choices;
    forall i | 0 <= i < |stages| - 1 ensures stages[1..][i] == stages[i + 1] && x[n + 1 + i] == x[n + (i + 1)] {
    }
    if forall i :: 0 <= i < |stages| ==> x[n + i] in Choices(w, stages[i]) {
      assert x[n + 0] in Choices(w, stages[0]);
    }
    if x[n] in Choices(w, stages[0]) && forall i :: 0 <= i < |stages| - 1 ==>
         x[n + 1 + i] in Choices(w, stages[1..][i])
    {
      forall i | 0 <= i < |stages| ensures x[n + i] in Choices(w, stages[i]) {
        if i > 0 { assert x[n + 1 + (i - 1)] in Choices(w, stages[1..][i - 1]); }
      }
    }
  }

  lemma ChosenStep(w: World, ls: seq<Joined>, n: nat, stages: seq<Stage>, x: Joined)
    requires stages != [] && Wide(ls, n)
    ensures Chosen(w, ls, n, stages, x) <==> Chosen(w, ExtendAll(ls, Choices(w, stages[0])), n + 1, stages[1..], x)
  {
    var rs := Choices(w, stages[0]);
    if |x| == n + |stages| {
      var y, next := x[..n + 1], ExtendAll(ls, rs);
      hide Choices, ExtendAll, Wide;
      ExtendAllMember(ls, rs, y, n);
      assert y[..n] == x[..n] && y[n] == x[n];
      assert y in next <==> x[..n] in ls && x[n] in rs;
      ChoicesStep(w, n, stages, x);
    }
  }

  lemma {:induction false} CombosMember(w: World, ls: seq<Joined>, n: nat, stages: seq<Stage>, x: Joined)
    requires Wide(ls, n)
    ensures x in Combos(w, ls, stages) <==> Chosen(w, ls, n, stages, x)
    decreases |stages|
  {
    if stages == [] {
      assert |x| == n ==> x[..n] == x;
    } else {
      var next := ExtendAll(ls, Choices(w, stages[0]));
      ExtendAllWide(ls, Choices(w, stages[0]), n);
      ChosenStep(w, ls, n, stages, x);
      hide Chosen, Wide, ExtendAll, Choices;
      CombosMember(w, next, n + 1, stages[1..], x);
    }
  }

  lemma {:induction false} SinglesMember(rows: seq<Row>, x: Joined)
    ensures x in Singles(rows) <==> |x| == 1 && x[0] in rows
  {
    if rows != [] {
      SinglesMember(rows[1..], x);
      assert |x| == 1 ==> x == [x[0]];
    }
  }

  lemma CombosAreCombinations(w: World, rows: seq<Row>, stages: seq<Stage>, x: Joined)
    ensures x in Combos(w, Singles(rows), stages) <==> Combination(w, rows, stages, x)
  {
    SinglesWide(rows);
    CombosMember(w, Singles(rows), 1, stages, x);
    if |x| == 1 + |stages| {
      SinglesMember(rows, x[..1]);
    }
    hide Choices, Combos, Wide;
  }

  lemma {:induction false} OnlyAll(js: seq<Joined>, good: iset<Joined>)
    requires forall x :: x in js ==> x in good
    ensures Only(js, good) == js
  {
    if js != [] {
      assert forall x :: x in js[1..] ==> x in js;
      OnlyAll(js[1..], good);
    }
  }

  /** The rows of a query: what its joins admit and its WHERE keeps. */
  ghost function Wanted(w: World, base: Source, stages: seq<Stage>, cs: seq<Expr>, rows: seq<Row>): iset<Joined> {
    iset x: Joined | x in Through(w, [base], stages, iset y | y in Singles(rows)) &&
                     All(w, AllSources([base], stages), x, cs)
  }

  lemma PlainSelects(w: World, base: Source, stages: seq<Stage>, cs: seq<Expr>, rows: seq<Row>)
    requires NoNullRows(w, stages)
    ensures Plain(w, base, stages, cs, rows)
         == Only(Combos(w, Singles(rows), stages), Wanted(w, base, stages, cs, rows))
  {
    var ls := Singles(rows);
    var all := iset y | y in ls;
    SinglesWide(rows);
    OnlyAll(ls, all);
    PipeSelects(w, [base], ls, stages, all);
    KeepSelects(w, AllSources([base], stages), cs, Combos(w, ls, stages), Through(w, [base], stages, all));
  }

  lemma WantedCombination(w: World, base: Source, stages: seq<Stage>, cs: seq<Expr>, rows: seq<Row>, x: Joined)
    requires Combination(w, rows, stages, x)
    ensures x in Wanted(w, base, stages, cs, rows)
       <==> Admitted(w, [base], stages, x) && All(w, AllSources([base], stages), x, cs)
  {
    SinglesMember(rows, x[..1]);
    hide Admitted, All, AllSources;
  }

  // ---- two queries that differ in their ON conjuncts ----

  predicate SameScans(stages: seq<Stage>, stages': seq<Stage>) {
    SameTables(stages, stages') && forall i :: 0 <= i < |stages| ==>
      stages[i].rows == stages'[i].rows && stages[i].pushed == stages'[i].pushed
  }

  lemma {:induction false} SameCombos(w: World, ls: seq<Joined>, stages: seq<Stage>, stages': seq<Stage>)
    requires SameScans(stages, stages')
    ensures Combos(w, ls, stages) == Combos(w, ls, stages')
    decreases |stages|
  {
    if stages != [] {
      assert Choices(w, stages[0]) == Choices(w, stages'[0]);
      SameCombos(w, ExtendAll(ls, Choices(w, stages[0])), stages[1..], stages'[1..]);
    }
  }

  lemma SameCombinations(w: World, rows: seq<Row>, stages: seq<Stage>, stages': seq<Stage>)
    requires SameScans(stages, stages')
    ensures NoNullRows(w, stages) <==> NoNullRows(w, stages')
    ensures forall x :: Combination(w, rows, stages, x) <==> Combination(w, rows, stages', x)
  {
    forall i | 0 <= i < |stages|
      ensures Choices(w, stages[i]) == Choices(w, stages'[i]) && Scanned(w, stages[i]) == Scanned(w, stages'[i])
    {
    }
    hide Choices, Scanned, Nulls;
  }

  /** Two queries over the same tables, with whatever joins and ON clauses, return the
      same list exactly when no combination that the WHERE keeps is admitted by the
      joins of one and not by those of the other. */
  lemma PlainSameExactly(w: World, base: Source, stages: seq<Stage>, stages': seq<Stage>, cs: seq<Expr>, rows: seq<Row>)
    requires SameScans(stages, stages') && NoNullRows(w, stages)
    ensures Plain(w, base, stages, cs, rows) == Plain(w, base, stages', cs, rows)
       <==> forall x :: Combination(w, rows, stages, x) && All(w, AllSources([base], stages), x, cs) ==>
              (Admitted(w, [base], stages, x) <==> Admitted(w, [base], stages', x))
  {
    var combos := Combos(w, Singles(rows), stages);
    var a, b := Wanted(w, base, stages, cs, rows), Wanted(w, base, stages', cs, rows);
    SameCombos(w, Singles(rows), stages, stages');
    SameCombinations(w, rows, stages, stages');
    SameSources([base], stages, stages');
    PlainSelects(w, base, stages, cs, rows);
    PlainSelects(w, base, stages', cs, rows);
    OnlyExactly(combos, a, b);
    hide *;
    forall x ensures x in combos <==> Combination(w, rows, stages, x) {
      CombosAreCombinations(w, rows, stages, x);
    }
    forall x | Combination(w, rows, stages, x)
      ensures |x| == 1 + |stages| == 1 + |stages'|
      ensures x in a <==> Admitted(w, [base], stages, x) && All(w, AllSources([base], stages), x, cs)
      ensures x in b <==> Admitted(w, [base], stages', x) && All(w, AllSources([base], stages), x, cs)
    {
      WantedCombination(w, base, stages, cs, rows, x);
      WantedCombination(w, base, stages', cs, rows, x);
    }
  }

  // ---- the SELECT as executed against the SELECT as written ----

  lemma {:induction false} StruckScans(stages: seq<Stage>)
    ensures SameScans(stages, WithoutRight(stages))
    decreases |stages|
  {
    if stages != [] {
      StruckScans(stages[1..]);
      var tail := WithoutRight(stages[1..]);
      forall i | 0 < i < |stages|
        ensures WithoutRight(stages)[i] == tail[i - 1] && stages[1..][i - 1] == stages[i]
      {
      }
      hide NotRight;
    }
  }

  /** A SELECT returns its meaning exactly when no combination of rows that the WHERE
      keeps is admitted by the joins with their whole ON clauses and not without the
      conjuncts set aside, or the other way round. */
  lemma SelectIsReferenceExactly(w: World, q: Select, tables: seq<Data>)
    requires |tables| == 1 + |q.joins| && Sound(w, q, tables) && NoNullRows(w, Stages(q, tables))
    requires q.filter.Some? || BaseParts(q.base, Shape(q.joins)) == []
    ensures SameScans(Stages(q, tables), WithoutRight(Stages(q, tables)))
    ensures var stages, rows := Stages(q, tables), RowsOf(tables[0].entries);
      SelectRows(w, q, tables) == Done(Reference(w, q, tables))
      <==> forall x :: Combination(w, rows, stages, x) && All(w, AllSources([q.base], stages), x, WhereOf(q)) ==>
             (Admitted(w, [q.base], stages, x) <==> Admitted(w, [q.base], WithoutRight(stages), x))
  {
    var stages := Stages(q, tables);
    StruckScans(stages);
    hide *;
    SelectReturns(w, q, tables);
    ReferenceSplit(w, q, tables);
    PlainSameExactly(w, q.base, stages, WithoutRight(stages), WhereOf(q), RowsOf(tables[0].entries));
  }

  // ---- INNER JOINs ----

  predicate AllInner(stages: seq<Stage>) {
    forall i :: 0 <= i < |stages| ==> stages[i].kind == Inner
  }

  function Aside(base: Source, s: Stage): seq<Expr> {
    OnPart(s.on, s.kind, s.src, base, RightSide)
  }

  /** The right components of `x` pass the conjuncts set aside for their tables. */
  predicate AsidePass(w: World, base: Source, n: nat, stages: seq<Stage>, x: Joined)
    requires |x| == n + |stages|
  {
    forall i :: 0 <= i < |stages| ==> All(w, [stages[i].src], [x[n + i]], Aside(base, stages[i]))
  }

  lemma AsideSplits(w: World, srcs: seq<Source>, row: Joined, s: Stage)
    requires srcs != [] && |row| == |srcs| + 1 && Distinct(srcs + [s.src]) && ClearAll(srcs + [s.src], s.on)
    ensures All(w, srcs + [s.src], row, s.on)
       <==> && All(w, srcs + [s.src], row, NotRight(s.on, s.src))
            && All(w, [s.src], [row[|srcs|]], Aside(srcs[0], s))
  {
    var all, fewer := srcs + [s.src], NotRight(s.on, s.src);
    assert all[0] == srcs[0] && all[|all| - 1] == s.src;
    NotRightClear(all, s.on, s.src);
    NotRightParts(s.on, s.kind, s.src, srcs[0]);
    assert All(w, [s.src], [row[|srcs|]], []);
    hide Distinct, ClearAll, Eval, NotRight, OnPart, All;
    OnSplits(w, all, row, s.on, s.kind, s.src, srcs[0]);
    OnSplits(w, all, row, fewer, s.kind, s.src, srcs[0]);
  }

  lemma AsideStep(w: World, base: Source, n: nat, stages: seq<Stage>, x: Joined)
    requires stages != [] && |x| == n + |stages|
    ensures AsidePass(w, base, n, stages, x)
       <==> All(w, [stages[0].src], [x[n]], Aside(base, stages[0])) && AsidePass(w, base, n + 1, stages[1..], x)
  {
    hide All, Aside;
    assert forall i :: 0 <= i < |stages| - 1 ==> stages[1..][i] == stages[i + 1] && x[n + 1 + i] == x[n + (i + 1)];
    if AsidePass(w, base, n + 1, stages[1..], x) && All(w, [stages[0].src], [x[n]], Aside(base, stages[0])) {
      forall i | 0 <= i < |stages| ensures All(w, [stages[i].src], [x[n + i]], Aside(base, stages[i])) {
        if i > 0 {
          assert All(w, [stages[1..][i - 1].src], [x[n + 1 + (i - 1)]], Aside(base, stages[1..][i - 1]));
        }
      }
    }
  }

  lemma {:induction false} InnerAdmits(w: World, srcs: seq<Source>, stages: seq<Stage>, x: Joined)
    requires srcs != [] && |x| == |srcs| + |stages| && Ready(srcs, stages) && AllInner(stages)
    ensures SameScans(stages, WithoutRight(stages))
    ensures Admitted(w, srcs, stages, x)
       <==> Admitted(w, srcs, WithoutRight(stages), x) && AsidePass(w, srcs[0], |srcs|, stages, x)
    decreases |stages|
  {
    StruckScans(stages);
    if stages != [] {
      var s, n := stages[0], |srcs|;
      var row := x[..n] + [x[n]];
      assert WithoutRight(stages)[1..] == WithoutRight(stages[1..]) && (srcs + [s.src])[0] == srcs[0];
      assert Distinct(srcs + [s.src]) by { assert Ready(srcs + [s.src], stages[1..]); }
      AsideSplits(w, srcs, row, s);
      AsideStep(w, srcs[0], n, stages, x);
      InnerAdmits(w, srcs + [s.src], stages[1..], x);
      hide Ready, Distinct, ClearAll, All, AsidePass, Aside, NotRight;
    }
  }

  /** Over INNER JOINs: exactly when each combination that the WHERE and the conjuncts
      not set aside let through also passes the ones set aside. */
  lemma InnerSelectExactly(w: World, q: Select, tables: seq<Data>)
    requires |tables| == 1 + |q.joins| && Sound(w, q, tables)
    requires forall i :: 0 <= i < |q.joins| ==> q.joins[i].kind == Inner
    requires q.filter.Some? || BaseParts(q.base, Shape(q.joins)) == []
    ensures |WithoutRight(Stages(q, tables))| == |Stages(q, tables)| == |q.joins|
    ensures var stages, rows := Stages(q, tables), RowsOf(tables[0].entries);
      SelectRows(w, q, tables) == Done(Reference(w, q, tables))
      <==> forall x :: Combination(w, rows, stages, x) ==>
             All(w, AllSources([q.base], stages), x, WhereOf(q)) ==>
             Admitted(w, [q.base], WithoutRight(stages), x) ==> AsidePass(w, q.base, 1, stages, x)
  {
    var stages, rows := Stages(q, tables), RowsOf(tables[0].entries);
    assert AllInner(stages) && NoNullRows(w, stages);
    StruckScans(stages);
    SelectIsReferenceExactly(w, q, tables);
    assert Ready([q.base], stages);
    hide *;
    forall x | Combination(w, rows, stages, x)
      ensures |x| == 1 + |stages| && |stages| == |WithoutRight(stages)|
      ensures Admitted(w, [q.base], stages, x)
         <==> Admitted(w, [q.base], WithoutRight(stages), x) && AsidePass(w, q.base, 1, stages, x)
    {
      CombinationWidth(w, rows, stages, x);
      InnerAdmits(w, [q.base], stages, x);
      StruckWidth(stages);
    }
    StruckWidth(stages);
  }

  lemma CombinationWidth(w: World, rows: seq<Row>, stages: seq<Stage>, x: Joined)
    requires Combination(w, rows, stages, x)
    ensures |x| == 1 + |stages|
  {
  }

  lemma StruckWidth(stages: seq<Stage>)
    ensures |WithoutRight(stages)| == |stages|
  {
    StruckScans(stages);
  }

  // ---- one join ----

  /** `l` has no match, but pairs that look like one. */
  predicate Hides(w: World, srcs: seq<Source>, l: Row, rows: seq<Row>, on: seq<Expr>, fewer: seq<Expr>) {
    !NoneMissed(w, srcs, [l], rows, on, fewer) && forall r :: r in rows ==> !All(w, srcs, [l] + [r], on)
  }

  /** For a base row `l`: no pair that misses a conjunct set aside gets past the WHERE,
      and if such a pair hides that `l` has no match, neither does `l` padded. */
  predicate Harmless(w: World, srcs: seq<Source>, l: Row, rows: seq<Row>, kind: Kind, width: nat,
                     on: seq<Expr>, fewer: seq<Expr>, cs: seq<Expr>)
  {
    && (forall r :: r in rows && Missed(w, srcs, [l], r, on, fewer) ==> !All(w, srcs, [l] + [r], cs))
    && (kind == LeftOuter && Hides(w, srcs, l, rows, on, fewer) ==> !All(w, srcs, [l] + [Nulls(width)], cs))
  }

  lemma {:induction false} KeepEvery(w: World, src: Source, rows: seq<Row>)
    ensures KeepRows(w, src, [], rows) == rows
  {
    if rows != [] { KeepEvery(w, src, rows[1..]); }
  }

  predicate Agrees(w: World, base: Source, s: Stage, l: Row, r: Row) {
    Follows(w, [base], [l], s, r) <==> Follows(w, [base], [l], s.(on := NotRight(s.on, s.src)), r)
  }

  /** When `l` with what stands in the right table is admitted both ways or neither. */
  lemma AgreesExactly(w: World, base: Source, s: Stage, l: Row, r: Row)
    requires s.pushed == [] && (s.kind == LeftOuter ==> Nulls(|s.src.columns|) !in s.rows)
    ensures var srcs, fewer := [base] + [s.src], NotRight(s.on, s.src);
      && (r in s.rows ==> (Agrees(w, base, s, l, r) <==> !Missed(w, srcs, [l], r, s.on, fewer)))
      && (s.kind == LeftOuter && r == Nulls(|s.src.columns|) ==>
            (Agrees(w, base, s, l, r) <==> !Hides(w, srcs, l, s.rows, s.on, fewer)))
  {
    var srcs, fewer := [base] + [s.src], NotRight(s.on, s.src);
    KeepEvery(w, s.src, s.rows);
    forall t ensures All(w, srcs, [l] + [t], s.on) ==> All(w, srcs, [l] + [t], fewer) {
      if All(w, srcs, [l] + [t], s.on) { NotRightHolds(w, srcs, [l] + [t], s.on, s.src); }
    }
    hide All, NotRight, Nulls, KeepRows;
  }

  lemma OneCombination(w: World, base: Source, s: Stage, rows: seq<Row>, x: Joined)
    requires s.pushed == [] && Combination(w, rows, [s], x)
    ensures |x| == 2 && x == [x[0]] + [x[1]] && x[0] in rows
    ensures x[1] in s.rows || (s.kind == LeftOuter && x[1] == Nulls(|s.src.columns|))
    ensures WithoutRight([s]) == [s.(on := NotRight(s.on, s.src))]
    ensures (Admitted(w, [base], [s], x) <==> Admitted(w, [base], WithoutRight([s]), x))
         <==> Agrees(w, base, s, x[0], x[1])
  {
    KeepEvery(w, s.src, s.rows);
    var one := [s];
    assert x[..1] == [x[0]] && one[0] == s;
    assert x[1 + 0] in Choices(w, one[0]);
    hide Follows, NotRight, Nulls, KeepRows;
    assert one[1..] == [] && WithoutRight(one)[1..] == [];
  }

  lemma PairCombination(w: World, s: Stage, rows: seq<Row>, l: Row, r: Row)
    requires s.pushed == [] && l in rows && (r in s.rows || (s.kind == LeftOuter && r == Nulls(|s.src.columns|)))
    ensures Combination(w, rows, [s], [l] + [r])
  {
    KeepEvery(w, s.src, s.rows);
    hide KeepRows, Nulls;
    assert ([l] + [r])[1 + 0] in Choices(w, s);
  }

  /** No combination that the WHERE keeps is admitted one way only. */
  ghost predicate AllAgree(w: World, base: Source, s: Stage, cs: seq<Expr>, rows: seq<Row>) {
    forall l, r :: l in rows && (r in s.rows || (s.kind == LeftOuter && r == Nulls(|s.src.columns|))) ==>
      All(w, [base] + [s.src], [l] + [r], cs) ==> Agrees(w, base, s, l, r)
  }

  lemma PairsAgree(w: World, base: Source, s: Stage, cs: seq<Expr>, rows: seq<Row>)
    requires s.pushed == []
    ensures SameScans([s], WithoutRight([s])) && AllSources([base], [s]) == [base] + [s.src]
    ensures (forall x :: Combination(w, rows, [s], x) && All(w, [base] + [s.src], x, cs) ==>
               (Admitted(w, [base], [s], x) <==> Admitted(w, [base], WithoutRight([s]), x)))
       <==> AllAgree(w, base, s, cs, rows)
  {
    StruckScans([s]);
    assert [s][1..] == [];
    hide All, NotRight, Nulls, Admitted, Combination, SameScans, Agrees, AllSources, WithoutRight;
    forall x | Combination(w, rows, [s], x)
      ensures |x| == 1 + |[s]| && x == [x[0]] + [x[1]] && x[0] in rows
      ensures x[1] in s.rows || (s.kind == LeftOuter && x[1] == Nulls(|s.src.columns|))
      ensures (Admitted(w, [base], [s], x) <==> Admitted(w, [base], WithoutRight([s]), x))
           <==> Agrees(w, base, s, x[0], x[1])
    {
      OneCombination(w, base, s, rows, x);
    }
    forall l, r | l in rows && (r in s.rows || (s.kind == LeftOuter && r == Nulls(|s.src.columns|)))
      ensures Combination(w, rows, [s], [l] + [r])
    {
      PairCombination(w, s, rows, l, r);
    }
  }

  lemma HarmlessExactly(w: World, base: Source, s: Stage, cs: seq<Expr>, rows: seq<Row>)
    requires s.pushed == [] && (s.kind == LeftOuter ==> Nulls(|s.src.columns|) !in s.rows)
    ensures AllAgree(w, base, s, cs, rows)
       <==> forall l :: l in rows ==>
              Harmless(w, [base] + [s.src], l, s.rows, s.kind, |s.src.columns|, s.on, NotRight(s.on, s.src), cs)
  {
    var srcs, fewer, pad := [base] + [s.src], NotRight(s.on, s.src), Nulls(|s.src.columns|);
    hide All, NotRight, Nulls, Missed, Hides, Agrees;
    forall l, r ensures r in s.rows ==> (Agrees(w, base, s, l, r) <==> !Missed(w, srcs, [l], r, s.on, fewer))
      ensures s.kind == LeftOuter && r == pad ==>
                (Agrees(w, base, s, l, r) <==> !Hides(w, srcs, l, s.rows, s.on, fewer))
    {
      AgreesExactly(w, base, s, l, r);
    }
  }

  /** With a single join, INNER or LEFT, and any WHERE: exactly when every base row is
      harmless. */
  lemma OneJoinSelectExactly(w: World, q: Select, tables: seq<Data>)
    requires |tables| == 1 + |q.joins| == 2 && Sound(w, q, tables)
    requires q.filter.Some? || BaseParts(q.base, Shape(q.joins)) == []
    requires q.joins[0].kind == LeftOuter ==> Nulls(|q.joins[0].src.columns|) !in RowsOf(tables[1].entries)
    ensures var j := q.joins[0];
      SelectRows(w, q, tables) == Done(Reference(w, q, tables))
      <==> forall l :: l in RowsOf(tables[0].entries) ==>
             Harmless(w, [q.base] + [j.src], l, RowsOf(tables[1].entries), j.kind, |j.src.columns|,
                      Split(j.on), NotRight(Split(j.on), j.src), WhereOf(q))
  {
    var j, rows := q.joins[0], RowsOf(tables[0].entries);
    var s := Stage(j.kind, j.src, RowsOf(tables[1].entries), [], Split(j.on));
    assert Stages(q, tables) == [s];
    KeepEvery(w, s.src, s.rows);
    assert NoNullRows(w, [s]);
    SelectIsReferenceExactly(w, q, tables);
    hide *;
    PairsAgree(w, q.base, s, WhereOf(q), rows);
    HarmlessExactly(w, q.base, s, WhereOf(q), rows);
  }

  // ---- nothing missed on the way ----

  /** At no join does a pair pass the conjuncts kept and fail one set aside. */
  predicate NothingMissed(w: World, srcs: seq<Source>, ls: seq<Joined>, stages: seq<Stage>)
    decreases |stages|
  {
    stages != [] ==>
      var s := stages[0];
      && (forall l :: l in ls ==> NoneMissed(w, srcs + [s.src], l, Scanned(w, s), s.on, NotRight(s.on, s.src)))
      && NothingMissed(w, srcs + [s.src], JoinStage(w, srcs, ls, s), stages[1..])
  }

  lemma {:induction false} JoinUnharmed(w: World, srcs: seq<Source>, ls: seq<Joined>, rows: seq<Row>, on: seq<Expr>,
                                        src: Source,
                                        kind: Kind, width: nat)
    requires forall l :: l in ls ==> NoneMissed(w, srcs, l, rows, on, NotRight(on, src))
    ensures Join(w, srcs, ls, rows, NotRight(on, src), kind, width) == Join(w, srcs, ls, rows, on, kind, width)
    decreases |ls|
  {
    if ls != [] {
      assert forall l :: l in ls[1..] ==> l in ls;
      JoinUnharmed(w, srcs, ls[1..], rows, on, src, kind, width);
      forall r | r in rows ensures Weaker(w, srcs, ls[0], r, on, NotRight(on, src)) {
        if All(w, srcs, ls[0] + [r], on) { NotRightHolds(w, srcs, ls[0] + [r], on, src); }
      }
      hide All, NotRight, NoneMissed, Matches, Nulls;
      MatchesFewer(w, srcs, ls[0], rows, on, NotRight(on, src));
    }
  }

  lemma {:induction false} PipeUnharmed(w: World, srcs: seq<Source>, ls: seq<Joined>, stages: seq<Stage>)
    requires NothingMissed(w, srcs, ls, stages)
    ensures Pipe(w, srcs, ls, WithoutRight(stages)) == Pipe(w, srcs, ls, stages)
    decreases |stages|
  {
    if stages != [] {
      var s := stages[0];
      JoinUnharmed(w, srcs + [s.src], ls, Scanned(w, s), s.on, s.src, s.kind, |s.src.columns|);
      PipeUnharmed(w, srcs + [s.src], JoinStage(w, srcs, ls, s), stages[1..]);
      assert WithoutRight(stages)[1..] == WithoutRight(stages[1..]);
      hide Join, NoneMissed, NotRight, KeepRows;
    }
  }

  /** Then the SELECT returns its meaning, for any INNER and LEFT JOINs, also beside
      rows of NULLs. */
  lemma SelectUnharmed(w: World, q: Select, tables: seq<Data>)
    requires |tables| == 1 + |q.joins| && Sound(w, q, tables)
    requires q.filter.Some? || BaseParts(q.base, Shape(q.joins)) == []
    requires NothingMissed(w, [q.base], Singles(RowsOf(tables[0].entries)), Stages(q, tables))
    ensures SelectRows(w, q, tables) == Done(Reference(w, q, tables))
  {
    var stages, rows := Stages(q, tables), RowsOf(tables[0].entries);
    StruckScans(stages);
    SameSources([q.base], stages, WithoutRight(stages));
    hide Sound, SelectRows, Reference, NothingMissed, Pipe, Keep, Singles, AllSources, WithoutRight, Stages,
         SameScans, SameTables;
    SelectReturns(w, q, tables);
    ReferenceSplit(w, q, tables);
    PipeUnharmed(w, [q.base], Singles(rows), stages);
  }

  // ---- instances: t(a) holds 1, u(b) holds 1 and 2 ----

  const T := Source("t", ["a"])
  const U := Source("u", ["b"])
  const T_DATA := Data(None, [(Int(1), [Int(1)])])
  const U_DATA := Data(None, [(Int(1), [Int(1)]), (Int(2), [Int(2)])])

  /** SELECT * FROM t JOIN u ON <column> = <n> */
  function JoinOn(table: Name, column: Name, n: int): Select {
    Select(T, [JoinSpec(Inner, U, Bin(Eq, Col(column, Some(table)), Lit(Int(n))))], None)
  }

  /** With nothing to test, scans and joins return everything. */
  lemma {:induction false} TakesAll(w: World, src: Source, cs: seq<Option<Expr>>, entries: seq<(Value, Row)>)
    requires cs == [] || cs == [None]
    ensures Scan(w, ScanPlan(src, cs), Data(None, entries)) == Done(RowsOf(entries))
  {
    AcceptsAll(w, src, entries);
  }

  lemma {:induction false} AcceptsAll(w: World, src: Source, entries: seq<(Value, Row)>)
    ensures Accepted(w, src, Always, entries) == Done(entries)
  {
    if entries != [] {
      AcceptsAll(w, src, entries[1..]);
      assert [entries[0]] + entries[1..] == entries;
    }
  }

  lemma NonePart(base: Source, stages: seq<Stage>, at: Option<nat>)
    ensures AnyPart([None], base, stages, at) == if at == Some(0) then [None] else []
  {
    var none: seq<Option<Expr>> := [None];
    assert none[0].None? && AnyPart(none[1..], base, stages, at) == [];
  }

  lemma OneOn(on: Expr, kind: Kind, src: Source, base: Source, side: Side)
    ensures OnPart([on], kind, src, base, side) == if SideOf(on, kind, src, base) == side then [on] else []
  {
    assert [on][1..] == [];
  }

  lemma OnePlan(on: Expr)
    requires Split(on) == [on]
    ensures var q, side := Select(T, [JoinSpec(Inner, U, on)], None), SideOf(on, Inner, U, T);
      PlanOf(q) == QueryPlan(ScanPlan(T, if side == BaseSide then [None, Some(on)] else [None]),
                             [JoinPlan(ScanPlan(U, []), Inner, if side == RightSide then [on] else [],
                                       if side == BothSides then Some(on) else None)], [])
  {
    var q := Select(T, [JoinSpec(Inner, U, on)], None);
    var shape := Shape(q.joins);
    assert shape[1..] == [] && shape[0].on == [on];
    OneOn(on, Inner, U, T, RightSide);
    OneOn(on, Inner, U, T, BaseSide);
    OneOn(on, Inner, U, T, BothSides);
    NonePart(T, shape, Some(0));
    NonePart(T, shape, Some(0 + 1));
    NonePart(T, shape, None);
    hide SideOf, AnyPart, OnPart;
    assert BaseParts(T, shape[1..]) == [];
    assert BaseParts(T, shape) == OnPart([on], Inner, U, T, BaseSide);
  }

  lemma {:induction false} KeepsAll(w: World, srcs: seq<Source>, js: seq<Joined>)
    ensures TryKeep(w, srcs, Always, js) == Done(js)
  {
    if js != [] {
      KeepsAll(w, srcs, js[1..]);
      assert [js[0]] + js[1..] == js;
    }
  }

  lemma {:induction false} MatchesAll(w: World, srcs: seq<Source>, l: Joined, rows: seq<Row>)
    ensures TryMatches(w, srcs, l, rows, Always) == Done(Extend(l, rows))
  {
    if rows != [] { MatchesAll(w, srcs, l, rows[1..]); }
  }

  /** One base row, one INNER JOIN without a predicate left. */
  lemma CrossJoin(w: World, q: Select, tables: seq<Data>, l: Row, rows: seq<Row>)
    requires |tables| == 1 + |q.joins| == 2
    requires PlanOf(q).residual == [] && PlanOf(q).joins[0].kind == Inner && PlanOf(q).joins[0].pred == None
    requires Scan(w, PlanOf(q).base, tables[0]) == Done([l])
    requires Scan(w, PlanOf(q).joins[0].scan, tables[1]) == Done(rows)
    ensures SelectRows(w, q, tables) == Done(Extend([l], rows))
  {
    var joins, js, ls := PlanOf(q).joins, Extend([l], rows), [[l]];
    var srcs := [q.base] + [joins[0].scan.src];
    assert joins[1..] == [] && tables[1..][0] == tables[1] && tables[1..][1..] == [] && ls[1..] == [] && js + [] == js;
    assert Singles([l]) == ls by { assert [l][1..] == []; }
    MatchesAll(w, srcs, [l], rows);
    KeepsAll(w, SourcesOf(q), js);
    hide PlanOf, Scan, TryMatches, Extend, Singles, TryKeep;
    var width := |joins[0].scan.src.columns|;
    assert TryJoin(w, srcs, ls[1..], rows, Always, Inner, width) == Done([]);
    assert TryJoin(w, srcs, ls, rows, Always, Inner, width) == Done(js);
    assert TryJoins(w, srcs, js, joins[1..], tables[1..][1..]) == Done(js);
    assert TryJoins(w, [q.base], ls, joins, tables[1..]) == Done(js);
  }

  lemma Extended(l: Joined, r: Row, t: Row)
    ensures Extend(l, [r, t]) == [l + [r], l + [t]]
  {
    var rows := [r, t];
    assert rows[1..] == [t] && [t][1..] == [];
    assert Extend(l, [t]) == [l + [t]];
    assert Extend(l, rows) == [l + [r]] + Extend(l, rows[1..]);
  }

  lemma StruckPlan()
    ensures var p := PlanOf(JoinOn("u", "b", 2));
      p.base == ScanPlan(T, [None]) && p.residual == [] && |p.joins| == 1
      && p.joins[0].scan == ScanPlan(U, []) && p.joins[0].kind == Inner && p.joins[0].pred == None
  {
    var on := JoinOn("u", "b", 2).joins[0].on;
    assert SideOf(on, Inner, U, T) == RightSide;
    hide PlanOf, SideOf;
    OnePlan(on);
  }

  lemma StruckSelect(w: World)
    ensures SelectRows(w, JoinOn("u", "b", 2), [T_DATA, U_DATA]) == Done([[[Int(1)], [Int(1)]], [[Int(1)], [Int(2)]]])
  {
    var q, tables := JoinOn("u", "b", 2), [T_DATA, U_DATA];
    var l, rows := [Int(1)], [[Int(1)], [Int(2)]];
    assert RowsOf(T_DATA.entries) == [l] && RowsOf(U_DATA.entries) == rows;
    hide PlanOf, Scan, RowsOf, SelectRows, Extend;
    StruckPlan();
    TakesAll(w, T, [None], T_DATA.entries);
    TakesAll(w, U, [], U_DATA.entries);
    CrossJoin(w, q, tables, l, rows);
    Extended([l], rows[0], rows[1]);
    assert rows == [rows[0], rows[1]];
    assert [l] + [rows[0]] == [[Int(1)], [Int(1)]] && [l] + [rows[1]] == [[Int(1)], [Int(2)]];
  }

  /** Whether a pair of these rows passes `<column> = <n>`. */
  lemma PairPasses(w: World, a: int, b: int, table: Name, column: Name, n: int)
    requires (table, column) == ("t", "a") || (table, column) == ("u", "b")
    ensures var e := Bin(Eq, Col(column, Some(table)), Lit(Int(n)));
      All(w, [T] + [U], [[Int(a)]] + [[Int(b)]], [e]) <==> (if table == "t" then a else b) == n
  {
    var srcs, rows, e := [T] + [U], [[Int(a)]] + [[Int(b)]], Bin(Eq, Col(column, Some(table)), Lit(Int(n)));
    var at := if table == "t" then 0 else 1;
    assert srcs == [T, U] && rows == [[Int(a)], [Int(b)]] && srcs[..1] == [T];
    assert "t" != "u" by { assert "t"[0] == 't' && "u"[0] == 'u'; }
    assert AliasAt(srcs, table) == Some(at);
    assert IndexOf(srcs[at].columns, column) == 0;
    assert Resolve(srcs, rows, column, Some(table)) == Done(rows[at][0]);
    hide Resolve, AliasAt, IndexOf;
    assert Eval(w, srcs, rows, e.left) == Done(rows[at][0]);
    assert Eval(w, srcs, rows, e) == Done(Bool((if table == "t" then a else b) == n));
    assert [e][0] == e;
  }

  lemma {:induction false} KeepAlways(w: World, srcs: seq<Source>, js: seq<Joined>)
    ensures Keep(w, srcs, [], js) == js
  {
    if js != [] { KeepAlways(w, srcs, js[1..]); }
  }

  lemma OneInnerPlain(w: World, base: Source, s: Stage, l: Row)
    requires s.kind == Inner && s.pushed == []
    ensures Plain(w, base, [s], [], [l]) == Matches(w, [base] + [s.src], [l], s.rows, s.on)
  {
    var srcs, ls, one := [base] + [s.src], [[l]], [s];
    var js := Matches(w, srcs, [l], s.rows, s.on);
    KeepEvery(w, s.src, s.rows);
    assert Singles([l]) == ls by { assert [l][1..] == []; }
    assert ls[1..] == [] && one[1..] == [] && js + [] == js;
    hide Matches, KeepRows, Singles;
    assert Join(w, srcs, ls[1..], s.rows, s.on, Inner, |s.src.columns|) == [];
    assert JoinStage(w, [base], ls, s) == js;
    assert Pipe(w, srcs, js, one[1..]) == js;
    assert Pipe(w, [base], ls, one) == js;
    KeepAlways(w, AllSources([base], one), js);
  }

  lemma TwoMatches(w: World, srcs: seq<Source>, l: Joined, r: Row, t: Row, cs: seq<Expr>)
    ensures Matches(w, srcs, l, [r, t], cs)
         == (if All(w, srcs, l + [r], cs) then [l + [r]] else [])
          + (if All(w, srcs, l + [t], cs) then [l + [t]] else [])
  {
    var rows := [r, t];
    assert rows[1..] == [t] && [t][1..] == [];
    hide All;
    assert Matches(w, srcs, l, rows[1..], cs) == if All(w, srcs, l + [t], cs) then [l + [t]] else [];
  }

  lemma PairTables(w: World, table: Name, column: Name, n: int)
    ensures Reference(w, JoinOn(table, column, n), [T_DATA, U_DATA])
         == Matches(w, [T] + [U], [[Int(1)]], [[Int(1)], [Int(2)]], [Bin(Eq, Col(column, Some(table)), Lit(Int(n)))])
  {
    var q, tables := JoinOn(table, column, n), [T_DATA, U_DATA];
    var s := Stage(Inner, U, [[Int(1)], [Int(2)]], [], [q.joins[0].on]);
    assert RowsOf(T_DATA.entries) == [[Int(1)]] && RowsOf(U_DATA.entries) == s.rows;
    assert WholeStages(q, tables) == [s];
    OneInnerPlain(w, T, s, [Int(1)]);
    hide Plain, Matches, RowsOf, WholeStages;
  }

  /** What `JoinOn` means. */
  lemma PairReference(w: World, table: Name, column: Name, n: int)
    requires (table, column) == ("t", "a") || (table, column) == ("u", "b")
    ensures Reference(w, JoinOn(table, column, n), [T_DATA, U_DATA])
         == (if n == 1 then [[[Int(1)]] + [[Int(1)]]] else [])
          + (if n == (if table == "t" then 1 else 2) then [[[Int(1)]] + [[Int(2)]]] else [])
  {
    hide *;
    PairTables(w, table, column, n);
    PairPasses(w, 1, 1, table, column, n);
    PairPasses(w, 1, 2, table, column, n);
    TwoMatches(w, [T] + [U], [[Int(1)]], [Int(1)], [Int(2)], [Bin(Eq, Col(column, Some(table)), Lit(Int(n)))]);
  }

  /** ON u.b = 2 is local to u and applied nowhere: the pair with u.b = 1 comes back too. */
  lemma StruckConjunctShows(w: World)
    ensures var q, tables := JoinOn("u", "b", 2), [T_DATA, U_DATA];
      && Reference(w, q, tables) == [[[Int(1)], [Int(2)]]]
      && SelectRows(w, q, tables) == Done([[[Int(1)], [Int(1)]], [[Int(1)], [Int(2)]]])
  {
    hide Reference, SelectRows;
    PairReference(w, "u", "b", 2);
    assert [[Int(1)]] + [[Int(2)]] == [[Int(1)], [Int(2)]];
    StruckSelect(w);
  }

  lemma MovedPlan()
    ensures var q := JoinOn("t", "a", 1); |BaseParts(T, Shape(q.joins))| == 1 && PlanOf(q).base.src == T
  {
    var q := JoinOn("t", "a", 1);
    var on, shape := q.joins[0].on, Shape(q.joins);
    assert SideOf(on, Inner, U, T) == BaseSide by {
      assert "t" != "u" by { assert "t"[0] == 't' && "u"[0] == 'u'; }
    }
    assert shape[1..] == [] && shape[0].on == [on];
    OneOn(on, Inner, U, T, BaseSide);
    hide SideOf, OnPart;
    assert BaseParts(T, shape[1..]) == [];
  }

  /** ON t.a = 1 is moved to the base scan, where the absent WHERE sits: the query
      raises though both pairs satisfy it. */
  lemma AbsentWhereRaises(w: World)
    ensures var q, tables := JoinOn("t", "a", 1), [T_DATA, U_DATA];
      && Reference(w, q, tables) == [[[Int(1)], [Int(1)]], [[Int(1)], [Int(2)]]]
      && SelectRows(w, q, tables) == Fail
  {
    var q, tables := JoinOn("t", "a", 1), [T_DATA, U_DATA];
    hide Reference, SelectRows, PlanOf, BaseParts, Shape;
    PairReference(w, "t", "a", 1);
    assert [[Int(1)]] + [[Int(1)]] == [[Int(1)], [Int(1)]] && [[Int(1)]] + [[Int(2)]] == [[Int(1)], [Int(2)]];
    MovedPlan();
    AbsentWhereRaisesExactly(w, q, tables);
  }
}
