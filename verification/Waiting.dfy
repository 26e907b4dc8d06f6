/** Who waits for what: the waiter lists that `_acquire` of minidb/txn/locks.py keeps, and
    how they make a deadlock visible to the search. */
module Waiting {
  import opened Basics
  import opened Versions
  import opened Locks
  import opened Deadlock

  /** `t` is among the waiters of `r`. */
  predicate WaitsAt(s: State, t: TxId, r: Resource) {
    r in s.resources && t in s.resources[r].waiters
  }

  /** Between the two states, waiting has changed for `t` alone, and only at `r`. */
  ghost predicate OnlyAt(s: State, s1: State, t: TxId, r: Resource) {
    forall q, u :: q != r || u != t ==> (WaitsAt(s1, u, q) <==> WaitsAt(s, u, q))
  }

  /** A table request: refused, the transaction waits for the table; granted, it does not,
      unless a lock it had made asking unnecessary; nobody else's waiting changes. */
  lemma TableRequestWaits(s: State, t: TxId, n: Name, m: Mode)
    ensures var (s1, ok) := TryTable(s, t, n, m);
      && OnlyAt(s, s1, t, Table(n))
      && (WaitsAt(s1, t, Table(n)) <==>
            !ok || (WaitsAt(s, t, Table(n)) && s.Booked(t, n).Some? && Covers(s.Booked(t, n).value, m)))
  {
  }

  /** Giving up resources leaves all waiting as it is. */
  lemma StrippedWaits(s: State, t: TxId, gone: set<Resource>, q: Resource, u: TxId)
    ensures WaitsAt(s.(resources := Stripped(s.resources, t, gone)), u, q) <==> WaitsAt(s, u, q)
  {
    if q in s.resources && q in gone {
      assert Left(s.resources[q], t).waiters == s.resources[q].waiters;
    }
  }

  lemma EscalationWaits(s: State, t: TxId, n: Name)
    ensures forall q, u :: WaitsAt(Escalate(s, t, n), u, q) <==> WaitsAt(s, u, q)
  {
    var gone := RowLocks(n, s.Rows(t, n));
    var s1 := s.(escalated := s.escalated + {(t, n)},
                 resources := Stripped(s.resources, t, gone),
                 txRows := s.txRows[(t, n) := {}]);
    forall q, u ensures WaitsAt(s1, u, q) <==> WaitsAt(s, u, q) {
      StrippedWaits(s, t, gone, q, u);
    }
    hide Stripped;
  }

  /** The resource at which a row request of `t` is refused: its table, or the row. */
  ghost function RefusedAt(s: State, t: TxId, n: Name, k: Key, m: Mode): Resource {
    if (t, n) in s.escalated || !TryTable(s, t, n, if m == X then IX else IS).1 then Table(n) else Row(n, k)
  }

  lemma RowRecordWaits(s: State, t: TxId, n: Name, k: Key, m: Mode)
    ensures var s1 := RecordRow(Unwait(s, Row(n, k), t), t, n, k, m);
      OnlyAt(s, s1, t, Row(n, k)) && !WaitsAt(s1, t, Row(n, k))
  {
  }

  lemma RowRefusedWaits(s: State, t: TxId, r: Resource)
    ensures OnlyAt(s, Wait(s, r, t), t, r) && WaitsAt(Wait(s, r, t), t, r)
  {
  }

  /** A row request: refused, the transaction waits for the resource that refused it;
      granted, it does not wait for the row; waiting at other resources and that of all
      others is unchanged. */
  lemma RowRequestWaits(s: State, limit: int, t: TxId, n: Name, k: Key, m: Mode)
    ensures var (s1, ok) := TryRow(s, limit, t, n, k, m);
      && (!ok ==> WaitsAt(s1, t, RefusedAt(s, t, n, k, m)))
      && (ok && (t, n) !in s.escalated ==> !WaitsAt(s1, t, Row(n, k)))
      && (forall q, u :: u != t || (q != Table(n) && q != Row(n, k)) ==> (WaitsAt(s1, u, q) <==> WaitsAt(s, u, q)))
  {
    hide Escalate, TryTable, WaitsAt, Wait, Unwait, RecordRow, Grantable, State.Rows, At;
    if (t, n) in s.escalated {
      TableRequestWaits(s, t, n, X);
    } else {
      TableRequestWaits(s, t, n, if m == X then IX else IS);
      var s1 := TryTable(s, t, n, if m == X then IX else IS).0;
      var s2 := RecordRow(Unwait(s1, Row(n, k), t), t, n, k, m);
      RowRefusedWaits(s1, t, Row(n, k));
      RowRecordWaits(s1, t, n, k, m);
      EscalationWaits(s2, t, n);
    }
  }

  /** Release takes nobody off a waiter list; giving up a wait takes off just the one. */
  lemma OtherStepsWait(s: State, limit: int, t: TxId, r: Resource)
    ensures forall q, u :: WaitsAt(Apply(s, limit, ReleaseAll(t)), u, q) <==> WaitsAt(s, u, q)
    ensures forall q, u :: WaitsAt(Apply(s, limit, GiveUp(t, r)), u, q) <==> WaitsAt(s, u, q) && !(q == r && u == t)
  {
    forall q, u ensures WaitsAt(Release(s, t), u, q) <==> WaitsAt(s, u, q) {
      StrippedWaits(s, t, Owned(s, t), q, u);
    }
  }

  // ---- a deadlock is found ----

  ghost predicate KeepsHolders(s: State, s1: State) {
    forall q, u :: s.Held(q, u).Some? ==> s1.Held(q, u).Some?
  }

  lemma EdgeAt(s: State, t: TxId, u: TxId)
    ensures WaitsFor(s.resources, t, u) <==> t != u && exists r :: WaitsAt(s, t, r) && s.Held(r, u).Some?
  {
    if t != u && exists r :: WaitsAt(s, t, r) && s.Held(r, u).Some? {
      var r :| WaitsAt(s, t, r) && s.Held(r, u).Some?;
      assert r in s.resources && u in s.resources[r].holders;
    }
    if WaitsFor(s.resources, t, u) {
      var r :| r in s.resources && t in s.resources[r].waiters && u in s.resources[r].holders;
      assert WaitsAt(s, t, r) && s.Held(r, u).Some?;
    }
  }

  /** A request for a row that another transaction holds is refused, takes no lock from
      anybody, and puts an edge to that transaction into the graph. */
  lemma RefusedPointsAtHolder(s: State, limit: int, t: TxId, n: Name, k: Key, u: TxId)
    requires Safe(s) && t != u && s.Held(Row(n, k), u).Some?
    ensures var (s1, ok) := TryRow(s, limit, t, n, k, X);
      !ok && Safe(s1) && KeepsHolders(s, s1) && WaitsFor(s1.resources, t, u)
  {
    var (s1, ok) := TryRow(s, limit, t, n, k, X);
    TryRowSafe(s, limit, t, n, k);
    RowRefused(s, limit, t, n, k, u);
    RowRequestWaits(s, limit, t, n, k, X);
    EdgeAt(s1, t, u);
  }

  lemma RowRefused(s: State, limit: int, t: TxId, n: Name, k: Key, u: TxId)
    requires Safe(s) && t != u && s.Held(Row(n, k), u).Some?
    ensures var (s1, ok) := TryRow(s, limit, t, n, k, X);
      !ok && KeepsHolders(s, s1) && s1.Held(RefusedAt(s, t, n, k, X), u).Some?
  {
    assert s.Held(Table(n), u) in {Some(IX), Some(X)};
    assert s.Held(Row(n, k), u) == Some(X);
    var m := if (t, n) in s.escalated then X else IX;
    var (s1, ok) := TryTable(s, t, n, m);
    TryTableMeans(s, t, n, m);
    TableGrantedExactly(s, t, n, m);
    GrantableMeans(s1, Row(n, k), true, X, t);
    WaitView(s1, Row(n, k), t);
    hide TryTable, Escalate, RecordRow, Grantable, State.Held, Safe, BooksMatch, TablesShared;
  }

  /** Another transaction's refused request leaves an edge in place. */
  lemma EdgeStays(s: State, limit: int, t: TxId, n: Name, k: Key, a: TxId, b: TxId)
    requires WaitsFor(s.resources, a, b) && a != t && KeepsHolders(s, TryRow(s, limit, t, n, k, X).0)
    ensures WaitsFor(TryRow(s, limit, t, n, k, X).0.resources, a, b)
  {
    hide TryRow, WaitsFor;
    EdgeAt(s, a, b);
    var r :| WaitsAt(s, a, r) && s.Held(r, b).Some?;
    RowRequestWaits(s, limit, t, n, k, X);
    EdgeAt(TryRow(s, limit, t, n, k, X).0, a, b);
  }

  /** Two transactions that ask for each other's row: both are refused, and whatever graph
      is built from the locks then has a cycle through both. */
  lemma CrossedRequestsAreSeen(s: State, limit: int, t: TxId, n: Name, k: Key, u: TxId, p: Name, j: Key, g: Graph)
    requires Safe(s) && t != u && s.Held(Row(n, k), t).Some? && s.Held(Row(p, j), u).Some?
    requires var s1 := TryRow(s, limit, t, p, j, X).0; var s2 := TryRow(s1, limit, u, n, k, X).0;
      forall a: TxId, b: TxId :: Edge(g, a, b) <==> WaitsFor(s2.resources, a, b)
    ensures !TryRow(s, limit, t, p, j, X).1 && !TryRow(TryRow(s, limit, t, p, j, X).0, limit, u, n, k, X).1
    ensures OnCycle(g, t) && OnCycle(g, u)
  {
    hide Safe, TryRow, WaitsFor, State.Held, Edge;
    var s1 := TryRow(s, limit, t, p, j, X).0;
    RefusedPointsAtHolder(s, limit, t, p, j, u);
    RefusedPointsAtHolder(s1, limit, u, n, k, t);
    EdgeStays(s1, limit, u, n, k, t, u);
    TwoCycle(g, t, u);
    TwoCycle(g, u, t);
  }

  lemma TwoCycle(g: Graph, t: TxId, u: TxId)
    requires Edge(g, t, u) && Edge(g, u, t)
    ensures OnCycle(g, t)
  {
    assert IsCycle(g, [t, u]) && [t, u][0] == t;
  }

  // ---- such a deadlock from the start ----

  /** A free row below the threshold: the request is granted and takes nothing away. */
  lemma RowIsHeld(s: State, limit: int, t: TxId, n: Name, k: Key)
    requires Safe(s) && (t, n) !in s.escalated && RowFree(s, t, n, k) && |s.Rows(t, n) + {k}| < limit
    ensures var s1 := TryRow(s, limit, t, n, k, X).0;
      Safe(s1) && s1.escalated == s.escalated && KeepsHolders(s, s1) && s1.Held(Row(n, k), t).Some?
    ensures forall q, u :: u != t || (q != Table(n) && q != Row(n, k)) ==>
              TryRow(s, limit, t, n, k, X).0.Held(q, u) == s.Held(q, u)
    ensures s.Held(Table(n), t) == None ==> TryRow(s, limit, t, n, k, X).0.Held(Table(n), t) == Some(IX)
  {
    var s1 := TryTable(s, t, n, IX).0;
    SafeBooks(s);
    FirstIntention(s, t, n);
    TryRowSafe(s, limit, t, n, k);
    RowGrantedExactly(s, limit, t, n, k);
    EscalatesExactly(s, limit, t, n, k);
    TryRowCases(s, limit, t, n, k);
    TryTableMeans(s, t, n, IX);
    TryTableSafe(s, t, n, IX);
    hide Safe, TryTable, Escalate, RecordRow, Unwait, Wait, Grantable, RowFree, State.Held;
    RowGrant(s1, t, n, k);
    RecordRowView(Unwait(s1, Row(n, k), t), t, n, k, X);
    Escalating(RecordRow(Unwait(s1, Row(n, k), t), t, n, k, X), t, n);
  }

  lemma FirstIntention(s: State, t: TxId, n: Name)
    requires BooksMatch(s)
    ensures var (s1, ok) := TryTable(s, t, n, IX);
      ok && s.Held(Table(n), t) == None ==> s1.Held(Table(n), t) == Some(IX)
  {
    assert s.Held(Table(n), t) == s.Booked(t, n);
    RecordTableView(Unwait(s, Table(n), t), t, n, IX);
    hide RecordTable;
  }

  lemma NothingHeld()
    ensures Safe(EMPTY) && forall q, u :: EMPTY.Held(q, u) == None
  {
  }

  lemma BothHold()
    ensures var s := TryRow(TryRow(EMPTY, 100, 1, "t", 1, X).0, 100, 2, "t", 2, X).0;
      Safe(s) && s.Held(Row("t", 1), 1).Some? && s.Held(Row("t", 2), 2).Some?
  {
    NothingHeld();
    assert |EMPTY.Rows(1, "t") + {1}| == 1;
    RowIsHeld(EMPTY, 100, 1, "t", 1);
    var s := TryRow(EMPTY, 100, 1, "t", 1, X).0;
    hide TryRow, Safe, TryTable;
    SafeBooks(s);
    assert s.Rows(2, "t") == {} by {
      assert forall k: Key :: k in s.Rows(2, "t") ==> s.Held(Row("t", k), 2).Some?;
    }
    assert |s.Rows(2, "t") + {2}| == 1;
    OthersNone(s);
    RowIsHeld(s, 100, 2, "t", 2);
  }

  lemma OthersNone(s: State)
    requires Safe(s) && s.Held(Table("t"), 1) == Some(IX) && (forall q, u :: u != 1 ==> s.Held(q, u) == None)
    requires forall k :: s.Held(Row("t", k), 1).Some? ==> k == 1
    ensures RowFree(s, 2, "t", 2)
  {
  }

  /** Two transactions lock a row each and then ask for the other's. */
  lemma CrossedFromEmpty(g: Graph)
    requires var s := Run(EMPTY, 100, [AskRow(1, "t", 1, X), AskRow(2, "t", 2, X),
                                       AskRow(1, "t", 2, X), AskRow(2, "t", 1, X)]);
      forall a: TxId, b: TxId :: Edge(g, a, b) <==> WaitsFor(s.resources, a, b)
    ensures OnCycle(g, 1) && OnCycle(g, 2)
  {
    var a, b, c, d := AskRow(1, "t", 1, X), AskRow(2, "t", 2, X), AskRow(1, "t", 2, X), AskRow(2, "t", 1, X);
    BothHold();
    hide TryRow, WaitsFor, Edge, Safe;
    var s1 := Apply(EMPTY, 100, a);
    var s2 := Apply(s1, 100, b);
    RunFour(EMPTY, 100, a, b, c, d);
    CrossedRequestsAreSeen(s2, 100, 1, "t", 1, 2, "t", 2, g);
  }

  lemma RunFour(s: State, limit: int, a: Step, b: Step, c: Step, d: Step)
    ensures Run(s, limit, [a, b, c, d])
         == Apply(Apply(Apply(Apply(s, limit, a), limit, b), limit, c), limit, d)
  {
    hide Apply;
    assert [a, b, c, d][1..] == [b, c, d] && [b, c, d][1..] == [c, d] && [c, d][1..] == [d] && [d][1..] == [];
    var s2 := Apply(Apply(s, limit, a), limit, b);
    assert Run(s, limit, [a, b, c, d]) == Run(s2, limit, [c, d]);
    assert Run(s2, limit, [c, d]) == Run(Apply(s2, limit, c), limit, [d]);
  }
}
