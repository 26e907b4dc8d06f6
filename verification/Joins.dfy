/** What a join lists, told by positions and cells: the pairs of rows that match, in the order
    of the nested loops of minidb/engine/executor.py, and each left row of a LEFT JOIN
    without a match once, with NULL in every cell on the right. */
module Joins {
  import opened Basics
  import opened Expressions
  import opened Planner
  import opened Executor
  import opened Evaluation

  /** Where a joined row comes from: a row on the left, and one on the right or padding. */
  datatype Origin = Origin(left: nat, right: Option<nat>)

  predicate Earlier(a: Origin, b: Origin) {
    a.left < b.left || (a.left == b.left && a.right.Some? && b.right.Some? && a.right.value < b.right.value)
  }

  /** The joined row is `l` with `r` behind it, or with `width` NULLs. */
  ghost predicate Composed(x: Joined, l: Joined, r: Option<Row>, width: nat) {
    && |x| == |l| + 1 && x[..|l|] == l
    && match r
       case Some(row) => x[|l|] == row
       case None => |x[|l|]| == width && forall c :: 0 <= c < width ==> x[|l|][c] == Null
  }

  /** `out` lists, in the order of the loops, each matching pair and, in a LEFT JOIN, each
      left row without a match, all of them once. */
  ghost predicate ListsJoin(out: seq<Joined>, from: seq<Origin>, ls: seq<Joined>, rows: seq<Row>,
                            matching: (Joined, Row) -> bool, kind: Kind, width: nat)
  {
    && |from| == |out|
    && (forall n :: 0 <= n < |from| ==> From(out[n], from[n], ls, rows, width))
    && (forall m, n :: 0 <= m < n < |from| ==> Earlier(from[m], from[n]))
    && AllOrigins(from, ls, rows, matching, kind)
  }

  ghost predicate AllOrigins(from: seq<Origin>, ls: seq<Joined>, rows: seq<Row>, matching: (Joined, Row) -> bool,
                             kind: Kind)
  {
    forall i: nat {:trigger ls[i]} :: i < |ls| ==> OriginsOf(from, i, ls[i], rows, matching, kind)
  }

  /** Left row `i` is listed with each of its matches, or padded if a LEFT JOIN finds none. */
  ghost predicate OriginsOf(from: seq<Origin>, i: nat, l: Joined, rows: seq<Row>, matching: (Joined, Row) -> bool,
                            kind: Kind)
  {
    && (forall j: nat :: j < |rows| ==> (Origin(i, Some(j)) in from <==> matching(l, rows[j])))
    && (Origin(i, None) in from <==> kind == LeftOuter && Unmatched(l, rows, matching))
  }

  ghost predicate From(x: Joined, o: Origin, ls: seq<Joined>, rows: seq<Row>, width: nat) {
    && o.left < |ls| && (o.right.Some? ==> o.right.value < |rows|)
    && Composed(x, ls[o.left], if o.right.Some? then Some(rows[o.right.value]) else None, width)
  }

  ghost predicate Unmatched(l: Joined, rows: seq<Row>, matching: (Joined, Row) -> bool) {
    forall j :: 0 <= j < |rows| ==> !matching(l, rows[j])
  }

  /** The matches of one left row, by their places on the right. */
  ghost predicate ListsMatches(ms: seq<Joined>, at: seq<nat>, l: Joined, rows: seq<Row>,
                               matching: (Joined, Row) -> bool)
  {
    && |at| == |ms|
    && (forall n :: 0 <= n < |at| ==> at[n] < |rows| && ms[n] == l + [rows[at[n]]])
    && (forall m, n :: 0 <= m < n < |at| ==> at[m] < at[n])
    && (forall j :: 0 <= j < |rows| ==> (j in at <==> matching(l, rows[j])))
  }

  function Up(at: seq<nat>): seq<nat> {
    seq(|at|, n requires 0 <= n < |at| => at[n] + 1)
  }

  lemma InUp(at: seq<nat>, j: nat)
    ensures j in Up(at) <==> j > 0 && j - 1 in at
  {
    if j > 0 && j - 1 in at {
      var n :| 0 <= n < |at| && at[n] == j - 1;
      assert Up(at)[n] == j;
    }
  }

  /** One row more in front. */
  lemma MatchesStep(ms: seq<Joined>, at: seq<nat>, l: Joined, rows: seq<Row>, matching: (Joined, Row) -> bool)
    requires rows != [] && ListsMatches(ms, at, l, rows[1..], matching)
    ensures if matching(l, rows[0]) then ListsMatches([l + [rows[0]]] + ms, [0] + Up(at), l, rows, matching)
            else ListsMatches(ms, Up(at), l, rows, matching)
  {
    MatchesMoveUp(ms, at, l, rows, matching);
    hide Up;
    if matching(l, rows[0]) {
      MatchInFront(ms, Up(at), l, rows, matching);
    }
  }

  lemma MatchesMoveUp(ms: seq<Joined>, at: seq<nat>, l: Joined, rows: seq<Row>, matching: (Joined, Row) -> bool)
    requires rows != [] && ListsMatches(ms, at, l, rows[1..], matching)
    ensures |Up(at)| == |ms|
    ensures forall n :: 0 <= n < |Up(at)| ==> 0 < Up(at)[n] < |rows| && ms[n] == l + [rows[Up(at)[n]]]
    ensures forall m, n :: 0 <= m < n < |Up(at)| ==> Up(at)[m] < Up(at)[n]
    ensures forall j: nat :: j < |rows| ==> (j in Up(at) <==> j > 0 && matching(l, rows[j]))
  {
    var rest := rows[1..];
    forall j: nat | j < |rows| ensures j in Up(at) <==> j > 0 && matching(l, rows[j]) {
      InUp(at, j);
      assert j > 0 ==> rows[j] == rest[j - 1];
    }
    forall n | 0 <= n < |at| ensures ms[n] == l + [rows[Up(at)[n]]] {
      assert rest[at[n]] == rows[at[n] + 1];
    }
  }

  lemma MatchInFront(ms: seq<Joined>, up: seq<nat>, l: Joined, rows: seq<Row>, matching: (Joined, Row) -> bool)
    requires rows != [] && matching(l, rows[0]) && |up| == |ms|
    requires forall n :: 0 <= n < |up| ==> 0 < up[n] < |rows| && ms[n] == l + [rows[up[n]]]
    requires forall m, n :: 0 <= m < n < |up| ==> up[m] < up[n]
    requires forall j: nat :: j < |rows| ==> (j in up <==> j > 0 && matching(l, rows[j]))
    ensures ListsMatches([l + [rows[0]]] + ms, [0] + up, l, rows, matching)
  {
  }

  lemma {:induction false} MatchesList(w: World, srcs: seq<Source>, l: Joined, rows: seq<Row>,
                                       on: seq<Expr>) returns (at: seq<nat>)
    ensures ListsMatches(Matches(w, srcs, l, rows, on), at, l, rows, (x: Joined, r: Row) => All(w, srcs, x + [r], on))
  {
    at := [];
    if rows != [] {
      at := MatchesList(w, srcs, l, rows[1..], on);
      MatchesStep(Matches(w, srcs, l, rows[1..], on), at, l, rows, (x: Joined, r: Row) => All(w, srcs, x + [r], on));
      at := Up(at);
      if All(w, srcs, l + [rows[0]], on) { at := [0] + at; }
    }
  }

  lemma {:induction false} TryMatchesList(w: World, srcs: seq<Source>, l: Joined, rows: seq<Row>,
                                          p: Pred) returns (at: seq<nat>)
    requires TryMatches(w, srcs, l, rows, p).Done?
    ensures ListsMatches(TryMatches(w, srcs, l, rows, p).value, at, l, rows,
                         (x: Joined, r: Row) => Test(w, srcs, x + [r], p) == Done(true))
  {
    at := [];
    if rows != [] {
      at := TryMatchesList(w, srcs, l, rows[1..], p);
      var rest := TryMatches(w, srcs, l, rows[1..], p).value;
      MatchesStep(rest, at, l, rows, (x: Joined, r: Row) => Test(w, srcs, x + [r], p) == Done(true));
      at := Up(at);
      if Test(w, srcs, l + [rows[0]], p) == Done(true) { at := [0] + at; }
      assert [] + rest == rest;
    }
  }

  /** The rows of one left row: its matches, or its padded row. */
  lemma RowLists(ms: seq<Joined>, at: seq<nat>, l: Joined, rows: seq<Row>, matching: (Joined, Row) -> bool, kind: Kind,
                 width: nat, pad: Joined) returns (out: seq<Joined>, from: seq<Origin>)
    requires ListsMatches(ms, at, l, rows, matching) && Composed(pad, l, None, width)
    ensures out == if ms == [] && kind == LeftOuter then [pad] else ms
    ensures ListsJoin(out, from, [l], rows, matching, kind, width)
  {
    if ms == [] && kind == LeftOuter {
      out, from := [pad], [Origin(0, None)];
    } else {
      out, from := ms, seq(|at|, n requires 0 <= n < |at| => Origin(0, Some(at[n])));
      forall j | 0 <= j < |rows| ensures Origin(0, Some(j)) in from <==> matching(l, rows[j]) {
        if j in at {
          var n :| 0 <= n < |at| && at[n] == j;
          assert from[n] == Origin(0, Some(j));
        }
      }
      if ms != [] { assert matching(l, rows[at[0]]) by { assert at[0] in at; } }
    }
    assert [l][0] == l;
  }

  /** The rows of the first left row, and then those of the others. */
  lemma JoinStep(first: seq<Joined>, from: seq<Origin>, rest: seq<Joined>, from': seq<Origin>, ls: seq<Joined>,
                 rows: seq<Row>, matching: (Joined, Row) -> bool, kind: Kind, width: nat)
    requires ls != [] && ListsJoin(first, from, [ls[0]], rows, matching, kind, width)
    requires ListsJoin(rest, from', ls[1..], rows, matching, kind, width)
    ensures ListsJoin(first + rest, from + Later(from'), ls, rows, matching, kind, width)
  {
    var all := from + Later(from');
    StepFrom(first, from, rest, from', ls, rows, matching, kind, width);
    LeftsZero(first, from, [ls[0]], rows, width);
    StepOrder(from, from');
    forall i: nat, r: Option<nat> | i < |ls|
      ensures Origin(i, r) in all <==> if i == 0 then Origin(0, r) in from else Origin(i - 1, r) in from'
    {
      OriginIn(from, from', i, r);
    }
    hide From, AllOrigins, Earlier;
    StepOrigins(all, from, from', ls, rows, matching, kind);
  }

  lemma LeftsZero(first: seq<Joined>, from: seq<Origin>, one: seq<Joined>, rows: seq<Row>, width: nat)
    requires |one| == 1 && |from| == |first|
    requires forall n :: 0 <= n < |from| ==> From(first[n], from[n], one, rows, width)
    ensures forall n :: 0 <= n < |from| ==> from[n].left == 0
  {
    forall n | 0 <= n < |from| ensures from[n].left == 0 {
      assert From(first[n], from[n], one, rows, width);
    }
  }

  lemma StepOrder(from: seq<Origin>, from': seq<Origin>)
    requires forall n :: 0 <= n < |from| ==> from[n].left == 0
    requires forall m, n :: 0 <= m < n < |from| ==> Earlier(from[m], from[n])
    requires forall m, n :: 0 <= m < n < |from'| ==> Earlier(from'[m], from'[n])
    ensures var all := from + Later(from'); forall m, n :: 0 <= m < n < |all| ==> Earlier(all[m], all[n])
  {
    var all := from + Later(from');
    forall m, n | 0 <= m < n < |all| ensures Earlier(all[m], all[n]) {
      if m >= |from| {
        assert Earlier(from'[m - |from|], from'[n - |from|]);
      }
    }
  }

  lemma StepFrom(first: seq<Joined>, from: seq<Origin>, rest: seq<Joined>, from': seq<Origin>, ls: seq<Joined>,
                 rows: seq<Row>, matching: (Joined, Row) -> bool, kind: Kind, width: nat)
    requires ls != [] && ListsJoin(first, from, [ls[0]], rows, matching, kind, width)
    requires ListsJoin(rest, from', ls[1..], rows, matching, kind, width)
    ensures var all := from + Later(from');
      |all| == |first + rest| && forall n :: 0 <= n < |all| ==> From((first + rest)[n], all[n], ls, rows, width)
  {
    var all, tail := from + Later(from'), ls[1..];
    hide Composed, Unmatched;
    forall n | 0 <= n < |all| ensures From((first + rest)[n], all[n], ls, rows, width) {
      if n < |from| {
        assert From(first[n], from[n], [ls[0]], rows, width);
      } else {
        assert From(rest[n - |from|], from'[n - |from|], tail, rows, width);
      }
    }
  }

  lemma StepOrigins(all: seq<Origin>, from: seq<Origin>, from': seq<Origin>, ls: seq<Joined>, rows: seq<Row>,
                    matching: (Joined, Row) -> bool, kind: Kind)
    requires ls != []
    requires forall i: nat, r: Option<nat> :: i < |ls| ==>
               (Origin(i, r) in all <==> if i == 0 then Origin(0, r) in from else Origin(i - 1, r) in from')
    requires AllOrigins(from, [ls[0]], rows, matching, kind) && AllOrigins(from', ls[1..], rows, matching, kind)
    ensures AllOrigins(all, ls, rows, matching, kind)
  {
    var one, tail := [ls[0]], ls[1..];
    forall i: nat | i < |ls| ensures OriginsOf(all, i, ls[i], rows, matching, kind) {
      if i == 0 {
        assert OriginsOf(from, 0, one[0], rows, matching, kind);
      } else {
        assert OriginsOf(from', i - 1, tail[i - 1], rows, matching, kind);
      }
    }
  }

  function Later(from: seq<Origin>): seq<Origin> {
    seq(|from|, n requires 0 <= n < |from| => Origin(from[n].left + 1, from[n].right))
  }

  lemma OriginIn(from: seq<Origin>, from': seq<Origin>, i: nat, r: Option<nat>)
    requires forall n :: 0 <= n < |from| ==> from[n].left == 0
    ensures Origin(i, r) in from + Later(from') <==> if i == 0 then Origin(0, r) in from else Origin(i - 1, r) in from'
  {
    if i > 0 && Origin(i - 1, r) in from' {
      var n :| 0 <= n < |from'| && from'[n] == Origin(i - 1, r);
      assert Later(from')[n] == Origin(i, r);
    }
  }

  lemma PadComposed(l: Joined, width: nat)
    ensures Composed(l + [Nulls(width)], l, None, width)
  {
  }

  lemma NothingLists(rows: seq<Row>, matching: (Joined, Row) -> bool, kind: Kind, width: nat)
    ensures ListsJoin([], [], [], rows, matching, kind, width)
  {
  }

  /** The join that queries mean. */
  lemma {:induction false} JoinLists(w: World, srcs: seq<Source>, ls: seq<Joined>, rows: seq<Row>, on: seq<Expr>,
                                     kind: Kind, width: nat) returns (from: seq<Origin>)
    ensures ListsJoin(Join(w, srcs, ls, rows, on, kind, width), from, ls, rows,
                      (l: Joined, r: Row) => All(w, srcs, l + [r], on), kind, width)
  {
    from := [];
    var matching := (l: Joined, r: Row) => All(w, srcs, l + [r], on);
    NothingLists(rows, matching, kind, width);
    hide ListsJoin, ListsMatches, Composed, All;
    if ls != [] {
      var at := MatchesList(w, srcs, ls[0], rows, on);
      PadComposed(ls[0], width);
      var first, here := RowLists(Matches(w, srcs, ls[0], rows, on), at, ls[0], rows, matching, kind, width,
                                  ls[0] + [Nulls(width)]);
      var there := JoinLists(w, srcs, ls[1..], rows, on, kind, width);
      JoinStep(first, here, Join(w, srcs, ls[1..], rows, on, kind, width), there, ls, rows, matching, kind, width);
      from := here + Later(there);
    }
  }

  /** The nested loops, whenever no predicate raises. */
  lemma {:induction false} LoopsList(w: World, srcs: seq<Source>, ls: seq<Joined>, rows: seq<Row>, p: Pred,
                                     kind: Kind, width: nat) returns (from: seq<Origin>)
    requires TryJoin(w, srcs, ls, rows, p, kind, width).Done?
    ensures ListsJoin(TryJoin(w, srcs, ls, rows, p, kind, width).value, from, ls, rows,
                      (l: Joined, r: Row) => Test(w, srcs, l + [r], p) == Done(true), kind, width)
  {
    from := [];
    var matching := (l: Joined, r: Row) => Test(w, srcs, l + [r], p) == Done(true);
    NothingLists(rows, matching, kind, width);
    hide ListsJoin, ListsMatches, Composed, Test;
    if ls != [] {
      var at := TryMatchesList(w, srcs, ls[0], rows, p);
      PadComposed(ls[0], width);
      var first, here := RowLists(TryMatches(w, srcs, ls[0], rows, p).value, at, ls[0], rows, matching, kind, width,
                                  ls[0] + [Nulls(width)]);
      var there := LoopsList(w, srcs, ls[1..], rows, p, kind, width);
      JoinStep(first, here, TryJoin(w, srcs, ls[1..], rows, p, kind, width).value, there, ls, rows, matching, kind,
               width);
      from := here + Later(there);
    }
  }

  // ---- filters ----

  /** `out` is what of `items` is to be kept, in order. */
  ghost predicate ListsKept<T>(out: seq<T>, at: seq<nat>, items: seq<T>, keep: T -> bool) {
    && |at| == |out|
    && (forall n :: 0 <= n < |at| ==> at[n] < |items| && out[n] == items[at[n]])
    && (forall m, n :: 0 <= m < n < |at| ==> at[m] < at[n])
    && (forall j :: 0 <= j < |items| ==> (j in at <==> keep(items[j])))
  }

  lemma KeptStep<T>(out: seq<T>, at: seq<nat>, items: seq<T>, keep: T -> bool)
    requires items != [] && ListsKept(out, at, items[1..], keep)
    ensures if keep(items[0]) then ListsKept([items[0]] + out, [0] + Up(at), items, keep)
            else ListsKept(out, Up(at), items, keep)
  {
    var rest := items[1..];
    forall j: nat | j < |items| ensures j in Up(at) <==> j > 0 && keep(items[j]) {
      InUp(at, j);
      assert j > 0 ==> items[j] == rest[j - 1];
    }
    forall n | 0 <= n < |at| ensures out[n] == items[Up(at)[n]] {
      assert rest[at[n]] == items[at[n] + 1];
    }
    if keep(items[0]) { KeptInFront(out, Up(at), items, keep); }
  }

  lemma KeptInFront<T>(out: seq<T>, up: seq<nat>, items: seq<T>, keep: T -> bool)
    requires items != [] && keep(items[0]) && |up| == |out|
    requires forall n :: 0 <= n < |up| ==> 0 < up[n] < |items| && out[n] == items[up[n]]
    requires forall m, n :: 0 <= m < n < |up| ==> up[m] < up[n]
    requires forall j: nat :: j < |items| ==> (j in up <==> j > 0 && keep(items[j]))
    ensures ListsKept([items[0]] + out, [0] + up, items, keep)
  {
  }

  /** The scans and filters of the meaning of a query. */
  lemma {:induction false} KeepRowsLists(w: World, src: Source, cs: seq<Expr>, rows: seq<Row>) returns (at: seq<nat>)
    ensures ListsKept(KeepRows(w, src, cs, rows), at, rows, (r: Row) => All(w, [src], [r], cs))
  {
    at := [];
    if rows != [] {
      at := KeepRowsLists(w, src, cs, rows[1..]);
      KeptStep(KeepRows(w, src, cs, rows[1..]), at, rows, (r: Row) => All(w, [src], [r], cs));
      at := if All(w, [src], [rows[0]], cs) then [0] + Up(at) else Up(at);
    }
  }

  lemma {:induction false} KeepLists(w: World, srcs: seq<Source>, cs: seq<Expr>, js: seq<Joined>) returns (at: seq<nat>)
    ensures ListsKept(Keep(w, srcs, cs, js), at, js, (j: Joined) => All(w, srcs, j, cs))
  {
    at := [];
    if js != [] {
      at := KeepLists(w, srcs, cs, js[1..]);
      KeptStep(Keep(w, srcs, cs, js[1..]), at, js, (j: Joined) => All(w, srcs, j, cs));
      at := if All(w, srcs, js[0], cs) then [0] + Up(at) else Up(at);
    }
  }

  /** Every row is a joined row of its own, in order. */
  lemma {:induction false} SinglesAre(rows: seq<Row>)
    ensures |Singles(rows)| == |rows| && forall i :: 0 <= i < |rows| ==> Singles(rows)[i] == [rows[i]]
  {
    if rows != [] { SinglesAre(rows[1..]); }
  }

  // ---- names in a padded row ----

  /** In a padded row every column of the right table is NULL, under its alias and, if no
      table to the left has the column, under its bare name. */
  lemma PaddedNames(w: World, srcs: seq<Source>, right: Source, x: Joined, l: Joined, name: Name)
    requires Composed(x, l, None, |right.columns|) && |l| == |srcs| && name in right.columns
    ensures var ref := Col(name, Some(right.alias));
      && Eval(w, srcs + [right], x, ref) == Done(Null)
      && Holds(w, srcs + [right], x, Un(IsNull, ref)) && !Holds(w, srcs + [right], x, Un(IsNotNull, ref))
    ensures (forall i :: 0 <= i < |srcs| ==> name !in srcs[i].columns) ==>
              var ref := Col(name, None);
              Eval(w, srcs + [right], x, ref) == Done(Null) && Holds(w, srcs + [right], x, Un(IsNull, ref))
  {
    var all, c := srcs + [right], IndexOf(right.columns, name);
    assert forall i :: 0 <= i < c ==> right.columns[i] in right.columns[..c];
    assert all[|srcs|] == right;
    QualifiedName(w, all, x, name, right.alias, |srcs|, c);
    if forall i :: 0 <= i < |srcs| ==> name !in srcs[i].columns {
      assert FirstWith(all, name, |srcs|, c);
      BareName(w, all, x, name, |srcs|, c);
    }
  }
}
