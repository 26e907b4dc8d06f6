/** The lock manager of minidb/txn/locks.py: table and row locks, the books kept
    per transaction, escalation and release.  Checking that a lock can be granted
    and recording its holder are one step here.  A call that would have to wait
    enters the waiter set and reports `false`; calling again is the next turn of
    the wait loop. */
module Locks {
  import opened Basics
  import opened Versions

  type Name = string
  datatype Mode = IS | IX | S | X
  datatype Resource = Table(table: Name) | Row(table: Name, key: Key)
  datatype Entry = Entry(holders: map<TxId, Mode>, waiters: set<TxId>)

  type Resources = map<Resource, Entry>

  /** All fields of the manager as one value; the nested dictionaries of the
      source are keyed by pairs. */
  datatype State = State(
    resources: Resources,
    txTables: map<(TxId, Name), Mode>,
    txRows: map<(TxId, Name), set<Key>>,
    escalated: set<(TxId, Name)>)
  {
    /** The mode in which `t` holds `r`, as the resource knows it. */
    function Held(r: Resource, t: TxId): Option<Mode> {
      var holders := At(resources, r).holders;
      if t in holders then Some(holders[t]) else None
    }

    /** The same as the books of the transaction know it. */
    function Booked(t: TxId, n: Name): Option<Mode> {
      if (t, n) in txTables then Some(txTables[(t, n)]) else None
    }

    function Rows(t: TxId, n: Name): set<Key> {
      if (t, n) in txRows then txRows[(t, n)] else {}
    }
  }

  const EMPTY := State(map[], map[], map[], {})

  function At(resources: Resources, r: Resource): Entry {
    if r in resources then resources[r] else Entry(map[], {})
  }

  // ---- the mode tables ----

  predicate Compatible(held: Mode, wanted: Mode) {
    match (held, wanted)
    case (IS, m) => m != X
    case (IX, m) => m == IS || m == IX
    case (S, m) => m == IS || m == S
    case (X, _) => false
  }

  predicate Covers(held: Mode, wanted: Mode) {
    held == X || held == wanted || (held == S && wanted == IS) || (held == IX && wanted == IS)
  }

  function Rank(m: Mode): nat {
    match m case IS => 0 case IX => 1 case S => 2 case X => 3
  }

  function Merge(held: Option<Mode>, m: Mode): Mode {
    if held.None? then m
    else if held.value == X then X
    else if {held.value, m} == {S, IX} then X
    else if Rank(held.value) >= Rank(m) then held.value else m
  }

  predicate Clash(row: bool, held: Mode, wanted: Mode) {
    if row then wanted == X || held == X else !Compatible(held, wanted)
  }

  predicate Grantable(holders: map<TxId, Mode>, row: bool, wanted: Mode, t: TxId) {
    forall u :: u in holders && u != t ==> !Clash(row, holders[u], wanted)
  }

  /** What a table lock is taken for. */
  datatype Right = ReadSome | ReadAll | WriteSome | WriteAll

  function Rights(m: Mode): set<Right> {
    match m
    case IS => {ReadSome}
    case IX => {ReadSome, WriteSome}
    case S => {ReadSome, ReadAll}
    case X => {ReadSome, ReadAll, WriteSome, WriteAll}
  }

  /** One transaction may not do `a` while another does `b`; those who read or write some
      rows sort it out by row locks. */
  predicate Disturbs(a: Right, b: Right) {
    || a == WriteAll || b == WriteAll
    || (a == WriteSome && b == ReadAll) || (a == ReadAll && b == WriteSome)
  }

  /** The mode tables: two modes go together exactly if no right of one disturbs one of the
      other, a mode covers another exactly if it gives all its rights, and the merge is
      the weakest mode that covers both, X for S and IX. */
  lemma ModeTables(a: Mode, b: Mode)
    ensures Compatible(a, b) <==> forall x, y :: x in Rights(a) && y in Rights(b) ==> !Disturbs(x, y)
    ensures Covers(a, b) <==> Rights(b) <= Rights(a)
    ensures Merge(None, b) == b
    ensures Covers(Merge(Some(a), b), a) && Covers(Merge(Some(a), b), b)
    ensures forall m :: Covers(m, a) && Covers(m, b) ==> Covers(m, Merge(Some(a), b))
  {
    assert ReadSome in Rights(a) && ReadSome in Rights(b);
    assert WriteAll in Rights(X) && ReadAll in Rights(S) && WriteSome in Rights(IX);
    assert a != b ==> !(Rights(a) <= Rights(b) <= Rights(a));
    assert S in {S, IX} && IX in {S, IX} && IS !in {S, IX} && X !in {S, IX};
    assert {a, b} == {S, IX} <==> (a == S && b == IX) || (a == IX && b == S) by {
      assert a in {a, b} && b in {a, b};
    }
  }

  // ---- the operations on values ----

  function Unwait(s: State, r: Resource, t: TxId): State {
    if r in s.resources
    then s.(resources := s.resources[r := s.resources[r].(waiters := s.resources[r].waiters - {t})])
    else s
  }

  function Wait(s: State, r: Resource, t: TxId): State {
    var e := At(s.resources, r);
    s.(resources := s.resources[r := e.(waiters := e.waiters + {t})])
  }

  function RecordTable(s: State, t: TxId, n: Name, m: Mode): State {
    var mode := Merge(s.Booked(t, n), m);
    var e := At(s.resources, Table(n));
    s.(txTables := s.txTables[(t, n) := mode],
       resources := s.resources[Table(n) := e.(holders := e.holders[t := mode])])
  }

  function RecordRow(s: State, t: TxId, n: Name, k: Key, m: Mode): State {
    var e := At(s.resources, Row(n, k));
    s.(resources := s.resources[Row(n, k) := e.(holders := e.holders[t := m])],
       txRows := s.txRows[(t, n) := s.Rows(t, n) + {k}])
  }

  function TryTable(s: State, t: TxId, n: Name, m: Mode): (State, bool) {
    if s.Booked(t, n).Some? && Covers(s.Booked(t, n).value, m) then (s, true)
    else if Grantable(At(s.resources, Table(n)).holders, false, m, t) then
      (RecordTable(Unwait(s, Table(n), t), t, n, m), true)
    else (Wait(s, Table(n), t), false)
  }

  /** `t` gives up the resources in `gone`; an entry nobody holds or awaits goes. */
  function Stripped(resources: Resources, t: TxId, gone: set<Resource>): Resources {
    map r | r in resources && (r in gone ==> Left(resources[r], t) != Entry(map[], {})) ::
      if r in gone then Left(resources[r], t) else resources[r]
  }

  function Left(e: Entry, t: TxId): Entry {
    e.(holders := e.holders - {t})
  }

  function RowLocks(n: Name, keys: set<Key>): set<Resource> {
    set k | k in keys :: Row(n, k)
  }

  function Escalate(s: State, t: TxId, n: Name): State {
    var s1 := s.(escalated := s.escalated + {(t, n)},
                 resources := Stripped(s.resources, t, RowLocks(n, s.Rows(t, n))),
                 txRows := s.txRows[(t, n) := {}]);
    if Grantable(At(s1.resources, Table(n)).holders, false, X, t) then RecordTable(s1, t, n, X) else s1
  }

  function TryRow(s: State, limit: int, t: TxId, n: Name, k: Key, m: Mode): (State, bool) {
    if (t, n) in s.escalated then TryTable(s, t, n, X)
    else
      var (s1, ok) := TryTable(s, t, n, if m == X then IX else IS);
      if !ok then (s1, false)
      else if !Grantable(At(s1.resources, Row(n, k)).holders, true, m, t) then (Wait(s1, Row(n, k), t), false)
      else
        var s2 := RecordRow(Unwait(s1, Row(n, k), t), t, n, k, m);
        (if |s2.Rows(t, n)| >= limit then Escalate(s2, t, n) else s2, true)
  }

  function Owned(s: State, t: TxId): set<Resource> {
    (set p | p in s.txTables.Keys && p.0 == t :: Table(p.1)) +
    (set p, k | p in s.txRows.Keys && p.0 == t && k in s.txRows[p] :: Row(p.1, k))
  }

  function Release(s: State, t: TxId): State {
    State(Stripped(s.resources, t, Owned(s, t)),
          map p | p in s.txTables && p.0 != t :: s.txTables[p],
          map p | p in s.txRows && p.0 != t :: s.txRows[p],
          set p | p in s.escalated && p.0 != t)
  }

  // ---- runs ----

  datatype Step =
    | AskTable(t: TxId, n: Name, m: Mode)
    | AskRow(t: TxId, n: Name, k: Key, m: Mode)
    | GiveUp(t: TxId, r: Resource)
    | ReleaseAll(t: TxId)

  function Apply(s: State, limit: int, a: Step): State {
    match a
    case AskTable(t, n, m) => TryTable(s, t, n, m).0
    case AskRow(t, n, k, m) => TryRow(s, limit, t, n, k, m).0
    case GiveUp(t, r) => Unwait(s, r, t)
    case ReleaseAll(t) => Release(s, t)
  }

  function Run(s: State, limit: int, steps: seq<Step>): State
    decreases |steps|
  {
    if steps == [] then s else Run(Apply(s, limit, steps[0]), limit, steps[1..])
  }

  /** The requests the executor makes: no table `IS`, rows exclusively. */
  predicate Usual(a: Step) {
    && (a.AskTable? ==> a.m != IS)
    && (a.AskRow? ==> a.m == X)
  }

  // ---- what every run keeps ----

  ghost predicate TablesShared(s: State) {
    forall n, t, u :: t != u && s.Held(Table(n), t).Some? && s.Held(Table(n), u).Some? ==>
      Compatible(s.Held(Table(n), t).value, s.Held(Table(n), u).value)
  }

  ghost predicate RowsExclusive(s: State) {
    forall n, k, t, u :: s.Held(Row(n, k), t).Some? && s.Held(Row(n, k), u).Some? ==> t == u
  }

  ghost predicate ModesUsual(s: State) {
    && (forall n, t :: s.Held(Table(n), t) != Some(IS))
    && (forall n, k, t :: s.Held(Row(n, k), t).Some? ==> s.Held(Row(n, k), t).value == X)
  }

  ghost predicate RowsIntended(s: State) {
    forall n, k, t :: s.Held(Row(n, k), t).Some? ==> s.Held(Table(n), t) in {Some(IX), Some(X)}
  }

  ghost predicate BooksMatch(s: State) {
    && (forall n, t :: s.Held(Table(n), t) == s.Booked(t, n))
    && (forall n, k, t :: s.Held(Row(n, k), t).Some? <==> k in s.Rows(t, n))
  }

  ghost predicate Safe(s: State) {
    TablesShared(s) && RowsExclusive(s) && ModesUsual(s) && RowsIntended(s) && BooksMatch(s)
  }

  // ---- what each operation does to the holders and the books ----

  /** `s1` differs from `s` only in that `t` now holds `r` in mode `m`. */
  ghost predicate Gains(s: State, s1: State, r: Resource, t: TxId, m: Mode) {
    forall q, u :: s1.Held(q, u) == if q == r && u == t then Some(m) else s.Held(q, u)
  }

  ghost predicate Loses(s: State, s1: State, gone: set<Resource>, t: TxId) {
    forall q, u :: s1.Held(q, u) == if q in gone && u == t then None else s.Held(q, u)
  }

  ghost predicate SameHolders(s: State, s1: State) {
    forall q, u :: s1.Held(q, u) == s.Held(q, u)
  }

  ghost predicate SameBooks(s: State, s1: State) {
    s1.txTables == s.txTables && s1.txRows == s.txRows
  }

  lemma UnwaitView(s: State, r: Resource, t: TxId)
    ensures SameHolders(s, Unwait(s, r, t)) && SameBooks(s, Unwait(s, r, t))
    ensures Unwait(s, r, t).escalated == s.escalated
  {
  }

  lemma WaitView(s: State, r: Resource, t: TxId)
    ensures SameHolders(s, Wait(s, r, t)) && SameBooks(s, Wait(s, r, t))
    ensures Wait(s, r, t).escalated == s.escalated
  {
  }

  lemma RecordTableView(s: State, t: TxId, n: Name, m: Mode)
    ensures Gains(s, RecordTable(s, t, n, m), Table(n), t, Merge(s.Booked(t, n), m))
  {
  }

  lemma RecordRowView(s: State, t: TxId, n: Name, k: Key, m: Mode)
    ensures RecordRow(s, t, n, k, m).escalated == s.escalated
    ensures Gains(s, RecordRow(s, t, n, k, m), Row(n, k), t, m)
    ensures forall u, p :: RecordRow(s, t, n, k, m).Booked(u, p) == s.Booked(u, p)
    ensures forall u, p :: RecordRow(s, t, n, k, m).Rows(u, p) ==
              if u == t && p == n then s.Rows(t, n) + {k} else s.Rows(u, p)
  {
  }

  lemma StrippedView(s: State, t: TxId, gone: set<Resource>, q: Resource, u: TxId)
    ensures s.(resources := Stripped(s.resources, t, gone)).Held(q, u)
         == if q in gone && u == t then None else s.Held(q, u)
  {
    if q in s.resources && q in gone && Left(s.resources[q], t) == Entry(map[], {}) {
      assert Left(s.resources[q], t).holders.Keys == s.resources[q].holders.Keys - {t};
    }
  }

  /** `Grantable` in terms of `Held`. */
  lemma GrantableMeans(s: State, r: Resource, row: bool, m: Mode, t: TxId)
    ensures Grantable(At(s.resources, r).holders, row, m, t)
       <==> forall u :: u != t && s.Held(r, u).Some? ==> !Clash(row, s.Held(r, u).value, m)
  {
    var holders := At(s.resources, r).holders;
    assert forall u :: u in holders ==> s.Held(r, u) == Some(holders[u]);
  }

  // ---- the mode merge ----

  /** Taking both S and IX leaves X without a second look.  If the others were
      compatible with the held mode and the new one was granted, they stay
      compatible with the merged mode, except when S met IX while somebody else
      held IS. */
  lemma MergeIsSafeExactly(held: Option<Mode>, m: Mode, other: Mode)
    requires held.Some? ==> Compatible(other, held.value) && !Covers(held.value, m)
    requires Compatible(other, m)
    ensures Compatible(other, Merge(held, m)) && Compatible(Merge(held, m), other)
       <==> !(held.Some? && {held.value, m} == {S, IX} && other == IS)
  {
    assert {S, IX} == {IX, S};
    if held.Some? {
      assert {held.value, m} == {S, IX} <==> (held.value == S && m == IX) || (held.value == IX && m == S) by {
        assert S in {S, IX} && IX in {S, IX};
      }
    }
  }

  /** In every state where `t` reads a table in S beside another reader's IS, its
      IX request goes through and an exclusive lock stands beside the reader's. */
  lemma MergeBesideReader(s: State, t: TxId, u: TxId, n: Name)
    requires BooksMatch(s) && t != u
    requires s.Held(Table(n), t) == Some(S) && s.Held(Table(n), u) == Some(IS)
    requires forall v :: v != t ==> s.Held(Table(n), v) in {None, Some(IS)}
    ensures var (s1, ok) := TryTable(s, t, n, IX);
      ok && s1.Held(Table(n), t) == Some(X) && s1.Held(Table(n), u) == Some(IS)
  {
    var s0 := Unwait(s, Table(n), t);
    GrantableMeans(s, Table(n), false, IX, t);
    UnwaitView(s, Table(n), t);
    RecordTableView(s0, t, n, IX);
    assert s.Held(Table(n), t) == s.Booked(t, n);
    MergeIsSafeExactly(Some(S), IX, IS);
    assert Merge(Some(S), IX) == X;
    hide RecordTable, Grantable, Unwait;
  }

  // ---- safety of single steps ----

  lemma SameIsSafe(s: State, s1: State)
    requires Safe(s) && SameHolders(s, s1) && SameBooks(s, s1)
    ensures Safe(s1)
  {
    assert forall t, n :: s1.Booked(t, n) == s.Booked(t, n) && s1.Rows(t, n) == s.Rows(t, n);
  }

  lemma RecordTableShared(s: State, t: TxId, n: Name, m: Mode)
    requires Safe(s) && m != IS
    requires s.Booked(t, n).Some? ==> !Covers(s.Booked(t, n).value, m)
    requires Grantable(At(s.resources, Table(n)).holders, false, m, t)
    ensures TablesShared(RecordTable(s, t, n, m))
  {
    var s1 := RecordTable(s, t, n, m);
    var mode := Merge(s.Booked(t, n), m);
    RecordTableView(s, t, n, m);
    GrantableMeans(s, Table(n), false, m, t);
    hide RecordTable, Merge, Compatible, Grantable;
    forall u | u != t && s.Held(Table(n), u).Some?
      ensures Compatible(s.Held(Table(n), u).value, mode) && Compatible(mode, s.Held(Table(n), u).value)
    {
      assert s.Held(Table(n), t) == s.Booked(t, n);
      MergeIsSafeExactly(s.Booked(t, n), m, s.Held(Table(n), u).value);
    }
  }

  lemma RecordTableSafe(s: State, t: TxId, n: Name, m: Mode)
    requires Safe(s) && m != IS
    requires s.Booked(t, n).Some? ==> !Covers(s.Booked(t, n).value, m)
    requires Grantable(At(s.resources, Table(n)).holders, false, m, t)
    ensures Safe(RecordTable(s, t, n, m))
    ensures s.Booked(t, n) == None || RecordTable(s, t, n, m).Booked(t, n) == Some(X)
  {
    var s1 := RecordTable(s, t, n, m);
    RecordTableShared(s, t, n, m);
    RecordTableView(s, t, n, m);
    assert s.Held(Table(n), t) == s.Booked(t, n);
    assert forall u, p :: s1.Booked(u, p) ==
             if u == t && p == n then Some(Merge(s.Booked(t, n), m)) else s.Booked(u, p);
    assert forall u, p :: s1.Rows(u, p) == s.Rows(u, p);
    assert s.Held(Table(n), t).Some? ==> Merge(s.Booked(t, n), m) == X;
  }

  lemma TryTableSafe(s: State, t: TxId, n: Name, m: Mode)
    requires Safe(s) && m != IS
    ensures Safe(TryTable(s, t, n, m).0)
  {
    hide RecordTable, Safe, Merge;
    if s.Booked(t, n).Some? && Covers(s.Booked(t, n).value, m) {
    } else if Grantable(At(s.resources, Table(n)).holders, false, m, t) {
      var s0 := Unwait(s, Table(n), t);
      UnwaitView(s, Table(n), t);
      SameIsSafe(s, s0);
      GrantableMeans(s, Table(n), false, m, t);
      GrantableMeans(s0, Table(n), false, m, t);
      RecordTableSafe(s0, t, n, m);
    } else {
      WaitView(s, Table(n), t);
      SameIsSafe(s, Wait(s, Table(n), t));
    }
  }

  /** What a granted table request leaves behind. */
  lemma TryTableMeans(s: State, t: TxId, n: Name, m: Mode)
    requires BooksMatch(s)
    ensures var (s1, ok) := TryTable(s, t, n, m);
      && (forall q, u :: s1.Held(q, u) != s.Held(q, u) ==> ok && q == Table(n) && u == t)
      && (ok ==> s1.Held(Table(n), t).Some? && Covers(s1.Held(Table(n), t).value, m))
      && s1.txRows == s.txRows && s1.escalated == s.escalated
      && (forall u, p :: s1.Booked(u, p) != s.Booked(u, p) ==> ok && p == n && u == t)
  {
    assert s.Held(Table(n), t) == s.Booked(t, n);
    var s0 := Unwait(s, Table(n), t);
    UnwaitView(s, Table(n), t);
    WaitView(s, Table(n), t);
    RecordTableView(s0, t, n, m);
  }

  lemma RecordRowSafe(s: State, t: TxId, n: Name, k: Key)
    requires Safe(s)
    requires s.Held(Table(n), t) in {Some(IX), Some(X)}
    requires Grantable(At(s.resources, Row(n, k)).holders, true, X, t)
    ensures Safe(RecordRow(s, t, n, k, X))
  {
    hide RecordRow, Compatible;
    RecordRowView(s, t, n, k, X);
    GrantableMeans(s, Row(n, k), true, X, t);
    hide Grantable, State.Held, State.Booked, State.Rows, At;
    assert forall u :: s.Held(Row(n, k), u).Some? ==> u == t;
  }

  lemma DropSafe(s: State, s1: State, t: TxId, gone: set<Resource>)
    requires Safe(s) && Loses(s, s1, gone, t)
    requires forall n :: Table(n) in gone ==> forall k :: k in s.Rows(t, n) ==> Row(n, k) in gone
    requires forall u, n :: s1.Booked(u, n) == if u == t && Table(n) in gone then None else s.Booked(u, n)
    requires forall u, n, k :: k in s1.Rows(u, n) <==> k in s.Rows(u, n) && !(u == t && Row(n, k) in gone)
    ensures Safe(s1)
  {
    hide Compatible;
  }

  lemma EscalateSafe(s: State, t: TxId, n: Name)
    requires Safe(s)
    ensures Safe(Escalate(s, t, n))
  {
    var gone := RowLocks(n, s.Rows(t, n));
    var s1 := s.(escalated := s.escalated + {(t, n)},
                 resources := Stripped(s.resources, t, gone),
                 txRows := s.txRows[(t, n) := {}]);
    forall q, u ensures s1.Held(q, u) == if q in gone && u == t then None else s.Held(q, u) {
      StrippedView(s, t, gone, q, u);
    }
    assert forall u, p :: s1.Booked(u, p) == s.Booked(u, p);
    assert forall u, p :: s1.Rows(u, p) == if u == t && p == n then {} else s.Rows(u, p);
    DropSafe(s, s1, t, gone);
    hide Safe, RecordTable, Stripped;
    if Grantable(At(s1.resources, Table(n)).holders, false, X, t) {
      if s1.Booked(t, n) == Some(X) {
        RecordAgain(s1, t, n);
        SameIsSafe(s1, RecordTable(s1, t, n, X));
      } else {
        RecordTableSafe(s1, t, n, X);
      }
    }
  }

  /** Recording X for one who has it changes nothing. */
  lemma RecordAgain(s: State, t: TxId, n: Name)
    requires Safe(s) && s.Booked(t, n) == Some(X)
    ensures SameHolders(s, RecordTable(s, t, n, X)) && SameBooks(s, RecordTable(s, t, n, X))
  {
    RecordTableView(s, t, n, X);
    assert s.Held(Table(n), t) == s.Booked(t, n);
  }

  lemma TryRowSafe(s: State, limit: int, t: TxId, n: Name, k: Key)
    requires Safe(s)
    ensures Safe(TryRow(s, limit, t, n, k, X).0)
  {
    hide Safe, TryTable, RecordRow, Escalate, Grantable;
    if (t, n) in s.escalated {
      TryTableSafe(s, t, n, X);
    } else {
      var (s1, ok) := TryTable(s, t, n, IX);
      TryTableSafe(s, t, n, IX);
      if ok {
        if Grantable(At(s1.resources, Row(n, k)).holders, true, X, t) {
          var s0 := Unwait(s1, Row(n, k), t);
          UnwaitView(s1, Row(n, k), t);
          SameIsSafe(s1, s0);
          GrantableMeans(s1, Row(n, k), true, X, t);
          GrantableMeans(s0, Row(n, k), true, X, t);
          SafeBooks(s);
          TryTableMeans(s, t, n, IX);
          assert s0.Held(Table(n), t) in {Some(IX), Some(X)};
          RecordRowSafe(s0, t, n, k);
          EscalateSafe(RecordRow(s0, t, n, k, X), t, n);
        } else {
          WaitView(s1, Row(n, k), t);
          SameIsSafe(s1, Wait(s1, Row(n, k), t));
        }
      }
    }
  }

  lemma SafeBooks(s: State)
    requires Safe(s)
    ensures BooksMatch(s)
  {
  }

  lemma OwnedMeans(s: State, t: TxId)
    ensures forall n :: Table(n) in Owned(s, t) <==> s.Booked(t, n).Some?
    ensures forall n, k :: Row(n, k) in Owned(s, t) <==> k in s.Rows(t, n)
  {
    forall n ensures Table(n) in Owned(s, t) <==> s.Booked(t, n).Some? {
      assert (t, n) in s.txTables.Keys ==> Table(n) in Owned(s, t);
    }
    forall n, k ensures Row(n, k) in Owned(s, t) <==> k in s.Rows(t, n) {
      assert (t, n) in s.txRows.Keys && k in s.txRows[(t, n)] ==> Row(n, k) in Owned(s, t);
    }
  }

  lemma ReleaseView(s: State, t: TxId)
    ensures Loses(s, Release(s, t), Owned(s, t), t)
  {
    forall q, u ensures Release(s, t).Held(q, u) == if q in Owned(s, t) && u == t then None else s.Held(q, u) {
      StrippedView(s, t, Owned(s, t), q, u);
    }
  }

  /** `release_all` leaves nothing of the transaction in any resource or book, and
      takes nothing from anybody else. */
  lemma ReleaseClears(s: State, t: TxId)
    requires BooksMatch(s)
    ensures forall q, u :: Release(s, t).Held(q, u) == if u == t then None else s.Held(q, u)
    ensures forall u, n :: Release(s, t).Booked(u, n) == if u == t then None else s.Booked(u, n)
    ensures forall u, n :: Release(s, t).Rows(u, n) == if u == t then {} else s.Rows(u, n)
    ensures forall n :: (t, n) !in Release(s, t).escalated
  {
    ReleaseView(s, t);
    OwnedMeans(s, t);
    hide Stripped, Owned;
    forall q, u ensures Release(s, t).Held(q, u) == if u == t then None else s.Held(q, u) {
      match q
      case Table(n) => assert s.Held(q, t) == s.Booked(t, n);
      case Row(n, k) => assert s.Held(q, t).Some? <==> k in s.Rows(t, n);
    }
  }

  lemma ReleaseSafe(s: State, t: TxId)
    requires Safe(s)
    ensures Safe(Release(s, t))
  {
    ReleaseView(s, t);
    ReleaseClears(s, t);
    OwnedMeans(s, t);
    hide Stripped, Owned;
    forall n, k | Table(n) in Owned(s, t) && k in s.Rows(t, n) ensures Row(n, k) in Owned(s, t) {}
    DropSafe(s, Release(s, t), t, Owned(s, t));
  }

  lemma StepSafe(s: State, limit: int, a: Step)
    requires Safe(s) && Usual(a)
    ensures Safe(Apply(s, limit, a))
  {
    hide Safe, TryTable, TryRow, Release;
    match a
    case AskTable(t, n, m) => TryTableSafe(s, t, n, m);
    case AskRow(t, n, k, m) => TryRowSafe(s, limit, t, n, k);
    case GiveUp(t, r) =>
      UnwaitView(s, r, t);
      SameIsSafe(s, Unwait(s, r, t));
    case ReleaseAll(t) => ReleaseSafe(s, t);
  }

  /** Over every run of the executor's requests the two levels stay consistent. */
  lemma {:induction false} RunSafe(s: State, limit: int, steps: seq<Step>)
    requires Safe(s)
    requires forall i :: 0 <= i < |steps| ==> Usual(steps[i])
    ensures Safe(Run(s, limit, steps))
    decreases |steps|
  {
    hide Safe, Apply;
    if steps != [] {
      StepSafe(s, limit, steps[0]);
      RunSafe(Apply(s, limit, steps[0]), limit, steps[1..]);
    }
  }

  /** Two-level lock safety, spelled out for runs that start with no locks. */
  lemma LockSafety(limit: int, steps: seq<Step>)
    requires forall i :: 0 <= i < |steps| ==> Usual(steps[i])
    ensures var s := Run(EMPTY, limit, steps);
      // holders of a table are pairwise compatible; a row has one holder at most
      && (forall n, t, u :: t != u && s.Held(Table(n), t).Some? && s.Held(Table(n), u).Some? ==>
            Compatible(s.Held(Table(n), t).value, s.Held(Table(n), u).value))
      && (forall n, k, t, u :: s.Held(Row(n, k), t).Some? && s.Held(Row(n, k), u).Some? ==> t == u)
      // a row is locked only under an intention on its table, so whoever holds the
      // table in S or X keeps everybody else off its rows
      && (forall n, k, t :: s.Held(Row(n, k), t).Some? ==> s.Held(Table(n), t) in {Some(IX), Some(X)})
      && (forall n, k, t, u :: t != u && s.Held(Table(n), t) in {Some(S), Some(X)} ==> s.Held(Row(n, k), u) == None)
      // the books of the transactions agree with the resources
      && (forall n, t :: s.Held(Table(n), t) == s.Booked(t, n))
      && (forall n, k, t :: s.Held(Row(n, k), t).Some? <==> k in s.Rows(t, n))
  {
    var s := Run(EMPTY, limit, steps);
    RunSafe(EMPTY, limit, steps);
    hide Run;
    forall n, k, t, u | t != u && s.Held(Table(n), t) in {Some(S), Some(X)} ensures s.Held(Row(n, k), u) == None {
      assert s.Held(Row(n, k), u).Some? ==> s.Held(Table(n), u) in {Some(IX), Some(X)};
    }
  }

  // ---- escalation ----

  /** `t` keeps everybody else from writing row `k`. */
  ghost predicate Guarded(s: State, t: TxId, n: Name, k: Key) {
    s.Held(Row(n, k), t) == Some(X) || s.Held(Table(n), t) == Some(X)
  }

  ghost predicate OthersOn(s: State, t: TxId, n: Name) {
    exists u :: u != t && s.Held(Table(n), u).Some?
  }

  lemma EscalateView(s: State, t: TxId, n: Name)
    requires BooksMatch(s)
    ensures var s1 := Escalate(s, t, n);
      && (forall u :: u != t ==> s1.Held(Table(n), u) == s.Held(Table(n), u))
      && (forall k, u :: s1.Held(Row(n, k), u) == if u == t then None else s.Held(Row(n, k), u))
      && (forall p, q, u :: p != n && (q == Table(p) || exists k :: q == Row(p, k)) ==> s1.Held(q, u) == s.Held(q, u))
      && s1.Held(Table(n), t) == (if OthersOn(s, t, n) then s.Held(Table(n), t) else Some(X))
      && s1.escalated == s.escalated + {(t, n)}
  {
    var gone := RowLocks(n, s.Rows(t, n));
    var s1 := s.(escalated := s.escalated + {(t, n)},
                 resources := Stripped(s.resources, t, gone),
                 txRows := s.txRows[(t, n) := {}]);
    forall q, u ensures s1.Held(q, u) == if q in gone && u == t then None else s.Held(q, u) {
      StrippedView(s, t, gone, q, u);
    }
    GrantableMeans(s1, Table(n), false, X, t);
    RecordTableView(s1, t, n, X);
    assert s.Held(Table(n), t) == s.Booked(t, n);
    hide RecordTable, Stripped, Grantable;
    assert Grantable(At(s1.resources, Table(n)).holders, false, X, t) <==> !OthersOn(s, t, n) by {
      assert forall u :: s1.Held(Table(n), u) == s.Held(Table(n), u);
      assert forall m :: !Compatible(m, X);
    }
    assert forall k :: k in s.Rows(t, n) <==> Row(n, k) in gone;
  }

  /** Nobody else holds the row, and everybody else's table lock leaves room for an
      intention of `u`. */
  ghost predicate RowFree(s: State, u: TxId, n: Name, k: Key) {
    && (s.Held(Table(n), u) in {Some(IX), Some(X)}
        || forall v :: v != u && s.Held(Table(n), v).Some? ==> s.Held(Table(n), v) == Some(IX))
    && (forall v :: v != u ==> s.Held(Row(n, k), v) == None)
  }

  /** When a row request by a transaction that has not escalated on the table goes
      through. */
  lemma RowGrantedExactly(s: State, limit: int, u: TxId, n: Name, k: Key)
    requires Safe(s) && (u, n) !in s.escalated
    ensures TryRow(s, limit, u, n, k, X).1 <==> RowFree(s, u, n, k)
  {
    var (s1, ok) := TryTable(s, u, n, IX);
    assert s.Held(Table(n), u) == s.Booked(u, n);
    TryTableMeans(s, u, n, IX);
    GrantableMeans(s, Table(n), false, IX, u);
    GrantableMeans(s1, Row(n, k), true, X, u);
    assert forall v :: s1.Held(Row(n, k), v) == s.Held(Row(n, k), v);
    hide TryTable, Escalate, RecordRow, Wait, Unwait, Grantable;
    TableForIntention(s, u, n);
    assert TryRow(s, limit, u, n, k, X).1 == (ok && Grantable(At(s1.resources, Row(n, k)).holders, true, X, u));
  }

  /** A mode in which another transaction may hold a table beside a request for `m`. */
  predicate Beside(held: Option<Mode>, m: Mode) {
    match m
    case IS => held != Some(X)
    case IX => held in {None, Some(IS), Some(IX)}
    case S => held in {None, Some(IS), Some(S)}
    case X => held == None
  }

  /** When a table request goes through, in terms of what the others hold. */
  lemma TableGrantedExactly(s: State, t: TxId, n: Name, m: Mode)
    requires TablesShared(s) && BooksMatch(s)
    ensures TryTable(s, t, n, m).1 <==> forall u :: u != t ==> Beside(s.Held(Table(n), u), m)
  {
    GrantableMeans(s, Table(n), false, m, t);
    assert s.Held(Table(n), t) == s.Booked(t, n);
    hide Grantable, RecordTable, Wait, Unwait, State.Held, BooksMatch;
    if s.Booked(t, n).Some? && Covers(s.Booked(t, n).value, m) {
      forall u | u != t ensures Beside(s.Held(Table(n), u), m) {
        if s.Held(Table(n), u).Some? {
          assert Compatible(s.Held(Table(n), u).value, s.Held(Table(n), t).value);
        }
      }
    }
  }

  lemma TableForIntention(s: State, u: TxId, n: Name)
    requires Safe(s)
    ensures TryTable(s, u, n, IX).1
       <==> (s.Held(Table(n), u) in {Some(IX), Some(X)}
             || forall v :: v != u && s.Held(Table(n), v).Some? ==> s.Held(Table(n), v) == Some(IX))
  {
    GrantableMeans(s, Table(n), false, IX, u);
    assert s.Held(Table(n), u) == s.Booked(u, n);
    assert forall v :: s.Held(Table(n), v) != Some(IS);
    hide Grantable, RecordTable, Wait, Unwait;
  }

  /** Escalation drops the row locks before the table upgrade is known to be
      granted.  For a row given up and any other transaction that has not itself
      escalated on the table: the row can be locked by it right afterwards if and
      only if another transaction held the table, so that the upgrade failed. */
  lemma EscalationProtectsExactly(s: State, limit: int, t: TxId, n: Name, k: Key, u: TxId)
    requires Safe(s) && k in s.Rows(t, n)
    requires u != t && (u, n) !in s.escalated
    ensures TryRow(Escalate(s, t, n), limit, u, n, k, X).1 <==> OthersOn(s, t, n)
  {
    var s1 := Escalate(s, t, n);
    EscalateSafe(s, t, n);
    EscalateView(s, t, n);
    RowGrantedExactly(s1, limit, u, n, k);
    assert s.Held(Row(n, k), t).Some?;
    assert s.Held(Table(n), t) in {Some(IX), Some(X)};
    hide Escalate, TryRow;
    assert forall v :: v != t ==> s1.Held(Row(n, k), v) == None;
    if OthersOn(s, t, n) {
      assert forall v :: v != t && s.Held(Table(n), v).Some? ==> s.Held(Table(n), v) == Some(IX);
    } else {
      assert s1.Held(Table(n), t) == Some(X);
    }
  }

  /** The holder of an intention is recorded on a free row. */
  lemma RowGrant(s: State, u: TxId, p: Name, j: Key)
    requires Safe(s) && s.Held(Table(p), u) in {Some(IX), Some(X)}
    requires Grantable(At(s.resources, Row(p, j)).holders, true, X, u)
    ensures var s2 := RecordRow(Unwait(s, Row(p, j), u), u, p, j, X);
      && Safe(s2) && BooksMatch(s2) && s2.escalated == s.escalated && Gains(s, s2, Row(p, j), u, X)
  {
    var s0 := Unwait(s, Row(p, j), u);
    UnwaitView(s, Row(p, j), u);
    SameIsSafe(s, s0);
    GrantableMeans(s, Row(p, j), true, X, u);
    GrantableMeans(s0, Row(p, j), true, X, u);
    RecordRowSafe(s0, u, p, j);
    RecordRowView(s0, u, p, j, X);
    SafeBooks(RecordRow(s0, u, p, j, X));
    hide Safe, Grantable, Unwait;
  }

  lemma ThresholdReached(s: State, limit: int, t: TxId, n: Name, k: Key)
    requires BooksMatch(s) && (t, n) !in s.escalated && s.Held(Table(n), t) == Some(IX)
    requires forall v :: s.Held(Row(n, k), v) == None
    requires |s.Rows(t, n)| + 1 >= limit
    ensures Grantable(At(s.resources, Row(n, k)).holders, true, X, t)
    ensures var s2 := RecordRow(Unwait(s, Row(n, k), t), t, n, k, X);
      k in s2.Rows(t, n) && TryRow(s, limit, t, n, k, X) == (Escalate(s2, t, n), true)
  {
    GrantableMeans(s, Row(n, k), true, X, t);
    assert s.Booked(t, n) == s.Held(Table(n), t);
    assert TryTable(s, t, n, IX) == (s, true);
    assert s.Held(Row(n, k), t) == None;
    assert k !in s.Rows(t, n);
    RecordRowView(Unwait(s, Row(n, k), t), t, n, k, X);
    hide RecordRow, TryTable, Grantable, Escalate;
  }

  /** In every state where two writers share a table, the request that reaches the
      threshold gives away the very row it was granted. */
  lemma EscalationGivesRowAway(s: State, limit: int, t: TxId, u: TxId, n: Name, k: Key)
    requires Safe(s) && t != u && (t, n) !in s.escalated && (u, n) !in s.escalated
    requires s.Held(Table(n), t) == Some(IX) && s.Held(Table(n), u) == Some(IX)
    requires forall v :: s.Held(Row(n, k), v) == None
    requires |s.Rows(t, n)| + 1 >= limit
    ensures var (s1, ok) := TryRow(s, limit, t, n, k, X);
      ok && !Guarded(s1, t, n, k) && TryRow(s1, limit, u, n, k, X).1
  {
    var s2 := RecordRow(Unwait(s, Row(n, k), t), t, n, k, X);
    SafeBooks(s);
    hide RecordRow, TryTable, TryRow, Grantable, Unwait, Escalate, Safe, BooksMatch, At, State.Held, State.Booked,
         State.Rows;
    ThresholdReached(s, limit, t, n, k);
    RowGrant(s, t, n, k);
    assert s2.Held(Table(n), u) == Some(IX);
    EscalateView(s2, t, n);
    EscalationProtectsExactly(s2, limit, t, n, k, u);
  }

  /** Such a state comes up. */
  lemma TwoWritersShare()
    ensures var s := Run(EMPTY, 1, [AskTable(1, "t", IX), AskTable(2, "t", IX)]);
      && Safe(s) && s.escalated == {} && (forall v :: s.Held(Row("t", 7), v) == None)
      && s.Held(Table("t"), 1) == Some(IX) && s.Held(Table("t"), 2) == Some(IX)
  {
    var a, b := AskTable(1, "t", IX), AskTable(2, "t", IX);
    var s1 := TryTable(EMPTY, 1, "t", IX).0;
    assert s1 == RecordTable(EMPTY, 1, "t", IX);
    var s2 := TryTable(s1, 2, "t", IX).0;
    assert s1.Held(Table("t"), 1) == Some(IX);
    assert s2.Held(Table("t"), 1) == Some(IX) && s2.Held(Table("t"), 2) == Some(IX);
    assert [a, b][1..] == [b] && [b][1..] == [] && Run(s2, 1, []) == s2;
    RunSafe(EMPTY, 1, [a, b]);
  }

  lemma Escalating(s: State, t: TxId, n: Name)
    ensures (t, n) in Escalate(s, t, n).escalated
  {
  }

  /** A row request escalates exactly if it is granted and the row is the one that
      fills the threshold. */
  lemma EscalatesExactly(s: State, limit: int, t: TxId, n: Name, k: Key)
    requires Safe(s) && (t, n) !in s.escalated
    ensures (t, n) in TryRow(s, limit, t, n, k, X).0.escalated
            <==> RowFree(s, t, n, k) && |s.Rows(t, n) + {k}| >= limit
  {
    SafeBooks(s);
    RowGrantedExactly(s, limit, t, n, k);
    hide Safe, TryTable, RecordRow, Escalate, Unwait, Wait, Grantable, At, RowFree;
    TryRowCases(s, limit, t, n, k);
    TryTableMeans(s, t, n, IX);
    var s1 := TryTable(s, t, n, IX).0;
    var s0 := Unwait(s1, Row(n, k), t);
    WaitView(s1, Row(n, k), t);
    UnwaitView(s1, Row(n, k), t);
    RecordRowView(s0, t, n, k, X);
    Escalating(RecordRow(s0, t, n, k, X), t, n);
  }

  /** The step that gives up `t`'s locks on `n` without getting the table: it fills
      the threshold while somebody else holds the table. */
  ghost predicate Refused(s: State, limit: int, a: Step, t: TxId, n: Name) {
    && a.AskRow? && a.t == t && a.n == n && (t, n) !in s.escalated
    && RowFree(s, t, n, a.k) && |s.Rows(t, n) + {a.k}| >= limit
    && OthersOn(s, t, n)
  }

  /** No step but the transaction's own release, or an escalation refused the
      table, takes away its hold on a row. */
  lemma GuardLostExactly(s: State, limit: int, a: Step, t: TxId, n: Name, k: Key)
    requires Safe(s) && Usual(a) && Guarded(s, t, n, k)
    ensures Guarded(Apply(s, limit, a), t, n, k) <==> !(a == ReleaseAll(t) || Refused(s, limit, a, t, n))
  {
    hide Safe, TryTable, TryRow, Release, Unwait;
    SafeBooks(s);
    match a
    case AskTable(u, p, m) => GuardKeptByTable(s, u, p, m, t, n, k);
    case AskRow(u, p, j, m) =>
      GuardAfterRow(s, limit, u, p, j, t, n, k);
      if u == t && p == n && (t, n) !in s.escalated { EscalatesExactly(s, limit, t, n, j); }
    case GiveUp(u, r) => UnwaitView(s, r, u);
    case ReleaseAll(u) => ReleaseClears(s, u);
  }

  lemma GuardKeptByTable(s: State, u: TxId, p: Name, m: Mode, t: TxId, n: Name, k: Key)
    requires BooksMatch(s) && Guarded(s, t, n, k)
    ensures Guarded(TryTable(s, u, p, m).0, t, n, k)
  {
    TryTableMeans(s, u, p, m);
    assert s.Held(Table(n), t) == s.Booked(t, n);
    assert u == t && p == n && s.Held(Table(n), t) == Some(X) ==> TryTable(s, u, p, m).0 == s;
  }

  lemma TryRowCases(s: State, limit: int, u: TxId, p: Name, j: Key)
    requires (u, p) !in s.escalated
    ensures var (s1, ok) := TryTable(s, u, p, IX);
      var s2 := RecordRow(Unwait(s1, Row(p, j), u), u, p, j, X);
      TryRow(s, limit, u, p, j, X).0 ==
        if !ok then s1
        else if !Grantable(At(s1.resources, Row(p, j)).holders, true, X, u) then Wait(s1, Row(p, j), u)
        else if |s2.Rows(u, p)| >= limit then Escalate(s2, u, p) else s2
  {
    hide TryTable, RecordRow, Escalate, Unwait, Wait, Grantable;
  }

  lemma GuardAfterRow(s: State, limit: int, u: TxId, p: Name, j: Key, t: TxId, n: Name, k: Key)
    requires Safe(s) && Guarded(s, t, n, k)
    ensures var s1 := TryRow(s, limit, u, p, j, X).0;
      Guarded(s1, t, n, k) <==>
        !(u == t && p == n && (t, n) !in s.escalated && (t, n) in s1.escalated && OthersOn(s, t, n))
  {
    SafeBooks(s);
    if (u, p) in s.escalated {
      hide Safe, TryTable, BooksMatch, Guarded;
      GuardKeptByTable(s, u, p, X, t, n, k);
    } else {
      hide Safe, TryTable, RecordRow, Escalate, Unwait, Wait, Grantable, BooksMatch, TryRow, Guarded, OthersOn, At;
      TryRowCases(s, limit, u, p, j);
      var (s1, ok) := TryTable(s, u, p, IX);
      TableFirst(s, u, p, t, n, k);
      WaitView(s1, Row(p, j), u);
      if ok && Grantable(At(s1.resources, Row(p, j)).holders, true, X, u) {
        GuardAfterGrant(s1, u, p, j, t, n, k);
      } else if ok {
        GuardSame(s1, Wait(s1, Row(p, j), u), t, n, k);
      }
    }
  }

  lemma GuardSame(s: State, s1: State, t: TxId, n: Name, k: Key)
    requires SameHolders(s, s1)
    ensures Guarded(s1, t, n, k) <==> Guarded(s, t, n, k)
  {
  }

  lemma TableFirst(s: State, u: TxId, p: Name, t: TxId, n: Name, k: Key)
    requires Safe(s) && Guarded(s, t, n, k)
    ensures var (s1, ok) := TryTable(s, u, p, IX);
      && Safe(s1) && Guarded(s1, t, n, k) && s1.escalated == s.escalated
      && (ok ==> s1.Held(Table(p), u) in {Some(IX), Some(X)})
      && (u == t && p == n ==> (OthersOn(s1, t, n) <==> OthersOn(s, t, n)))
  {
    SafeBooks(s);
    hide Safe, TryTable;
    var s1 := TryTable(s, u, p, IX).0;
    TryTableMeans(s, u, p, IX);
    TryTableSafe(s, u, p, IX);
    GuardKeptByTable(s, u, p, IX, t, n, k);
    if u == t && p == n {
      assert forall v :: v != t ==> s1.Held(Table(n), v) == s.Held(Table(n), v);
    }
  }

  lemma RowGainView(s: State, s2: State, u: TxId, p: Name, j: Key, t: TxId, n: Name, k: Key)
    requires Safe(s) && Gains(s, s2, Row(p, j), u, X) && Guarded(s, t, n, k)
    ensures Guarded(s2, t, n, k) && (OthersOn(s2, t, n) <==> OthersOn(s, t, n))
    ensures s2.Held(Table(n), t) == Some(X) ==> !OthersOn(s2, t, n)
  {
    assert forall v :: s2.Held(Table(n), v) == s.Held(Table(n), v);
    assert TablesShared(s);
    hide State.Held, BooksMatch, RowsExclusive, RowsIntended, ModesUsual;
  }

  lemma EscalateGuard(s: State, u: TxId, p: Name, t: TxId, n: Name, k: Key)
    requires BooksMatch(s) && Guarded(s, t, n, k)
    requires s.Held(Table(n), t) == Some(X) ==> !OthersOn(s, t, n)
    ensures Escalate(s, u, p).escalated == s.escalated + {(u, p)}
    ensures Guarded(Escalate(s, u, p), t, n, k) <==> !(u == t && p == n && OthersOn(s, t, n))
  {
    hide Escalate, BooksMatch, State.Held, OthersOn;
    EscalateView(s, u, p);
  }

  lemma GuardAfterGrant(s: State, u: TxId, p: Name, j: Key, t: TxId, n: Name, k: Key)
    requires Safe(s) && Guarded(s, t, n, k) && s.Held(Table(p), u) in {Some(IX), Some(X)}
    requires Grantable(At(s.resources, Row(p, j)).holders, true, X, u)
    ensures var s2 := RecordRow(Unwait(s, Row(p, j), u), u, p, j, X);
      && s2.escalated == s.escalated
      && Escalate(s2, u, p).escalated == s.escalated + {(u, p)}
      && Guarded(s2, t, n, k)
      && (Guarded(Escalate(s2, u, p), t, n, k) <==> !(u == t && p == n && OthersOn(s, t, n)))
  {
    hide *;
    var s2 := RecordRow(Unwait(s, Row(p, j), u), u, p, j, X);
    RowGrant(s, u, p, j);
    RowGainView(s, s2, u, p, j, t, n, k);
    EscalateGuard(s2, u, p, t, n, k);
  }

  lemma ExclusiveKept(s: State, limit: int, a: Step, t: TxId, n: Name)
    requires Safe(s) && Usual(a) && a != ReleaseAll(t) && s.Held(Table(n), t) == Some(X)
    ensures Apply(s, limit, a).Held(Table(n), t) == Some(X)
  {
    hide Safe, TryTable, TryRow, Release, Unwait;
    SafeBooks(s);
    match a
    case AskTable(u, p, m) => ExclusiveKeptByTable(s, u, p, m, t, n);
    case AskRow(u, p, j, m) => ExclusiveKeptByRow(s, limit, u, p, j, t, n);
    case GiveUp(u, r) => UnwaitView(s, r, u);
    case ReleaseAll(u) => ReleaseClears(s, u);
  }

  lemma ExclusiveKeptByTable(s: State, u: TxId, p: Name, m: Mode, t: TxId, n: Name)
    requires BooksMatch(s) && s.Held(Table(n), t) == Some(X)
    ensures TryTable(s, u, p, m).0.Held(Table(n), t) == Some(X)
  {
    TryTableMeans(s, u, p, m);
    assert s.Held(Table(n), t) == s.Booked(t, n);
    assert u == t && p == n ==> TryTable(s, u, p, m).0 == s;
  }

  lemma ExclusiveKeptByRow(s: State, limit: int, u: TxId, p: Name, j: Key, t: TxId, n: Name)
    requires Safe(s) && s.Held(Table(n), t) == Some(X)
    ensures TryRow(s, limit, u, p, j, X).0.Held(Table(n), t) == Some(X)
  {
    SafeBooks(s);
    hide Safe, TryTable, RecordRow, Escalate, Unwait, Wait, Grantable, BooksMatch;
    if (u, p) in s.escalated {
      ExclusiveKeptByTable(s, u, p, X, t, n);
    } else {
      var (s1, ok) := TryTable(s, u, p, IX);
      ExclusiveKeptByTable(s, u, p, IX, t, n);
      TableSafeIX(s, u, p);
      WaitView(s1, Row(p, j), u);
      if ok && Grantable(At(s1.resources, Row(p, j)).holders, true, X, u) {
        ExclusiveKeptByGrant(s1, u, p, j, t, n);
      }
    }
  }

  lemma TableSafeIX(s: State, u: TxId, p: Name)
    requires Safe(s)
    ensures var (s1, ok) := TryTable(s, u, p, IX);
      Safe(s1) && (ok ==> s1.Held(Table(p), u) in {Some(IX), Some(X)})
  {
    SafeBooks(s);
    hide Safe, TryTable;
    TryTableMeans(s, u, p, IX);
    TryTableSafe(s, u, p, IX);
  }

  lemma ExclusiveKeptByGrant(s: State, u: TxId, p: Name, j: Key, t: TxId, n: Name)
    requires Safe(s) && s.Held(Table(n), t) == Some(X) && s.Held(Table(p), u) in {Some(IX), Some(X)}
    requires Grantable(At(s.resources, Row(p, j)).holders, true, X, u)
    ensures var s2 := RecordRow(Unwait(s, Row(p, j), u), u, p, j, X);
      s2.Held(Table(n), t) == Some(X) && Escalate(s2, u, p).Held(Table(n), t) == Some(X)
  {
    var s2 := RecordRow(Unwait(s, Row(p, j), u), u, p, j, X);
    RowGrant(s, u, p, j);
    hide Safe, RecordRow, Grantable, Unwait, Escalate;
    EscalateView(s2, u, p);
  }

  /** From an escalation that got the table to the transaction's release, whatever
      the others ask for: nobody else holds the table or any of its rows. */
  lemma {:induction false} EscalatedStaysAlone(s: State, limit: int, steps: seq<Step>, t: TxId, n: Name)
    requires Safe(s) && s.Held(Table(n), t) == Some(X)
    requires forall i :: 0 <= i < |steps| ==> Usual(steps[i]) && steps[i] != ReleaseAll(t)
    ensures var s1 := Run(s, limit, steps);
      && s1.Held(Table(n), t) == Some(X)
      && (forall u :: u != t ==> s1.Held(Table(n), u) == None)
      && (forall u, k :: u != t ==> s1.Held(Row(n, k), u) == None)
    decreases |steps|
  {
    if steps == [] {
      assert forall u, k :: s.Held(Row(n, k), u).Some? ==> s.Held(Table(n), u) in {Some(IX), Some(X)};
      assert forall u :: u != t && s.Held(Table(n), u).Some? ==> Compatible(X, s.Held(Table(n), u).value);
    } else {
      StepSafe(s, limit, steps[0]);
      ExclusiveKept(s, limit, steps[0], t, n);
      hide Safe, Apply;
      EscalatedStaysAlone(Apply(s, limit, steps[0]), limit, steps[1..], t, n);
    }
  }

  // ---- the manager ----

  lemma StripOne(resources: Resources, t: TxId, gone: set<Resource>, r: Resource)
    requires r !in gone
    ensures r !in resources ==> Stripped(resources, t, gone + {r}) == Stripped(resources, t, gone)
    ensures r in resources ==>
      && r in Stripped(resources, t, gone) && Stripped(resources, t, gone)[r] == resources[r]
      && Stripped(resources, t, gone + {r}) ==
           if Left(resources[r], t) == Entry(map[], {}) then Stripped(resources, t, gone) - {r}
           else Stripped(resources, t, gone)[r := Left(resources[r], t)]
  {
  }

  lemma StripNone(resources: Resources, t: TxId)
    ensures Stripped(resources, t, {}) == resources
  {
  }

  class LockManager {
    const limit: int
    var resources: Resources
    var txTables: map<(TxId, Name), Mode>
    var txRows: map<(TxId, Name), set<Key>>
    var escalated: set<(TxId, Name)>

    constructor (limit: int)
      ensures Now() == EMPTY && this.limit == limit
    {
      this.limit := limit;
      resources, txTables, txRows, escalated := map[], map[], map[], {};
    }

    function Now(): State
      reads this
    {
      State(resources, txTables, txRows, escalated)
    }

    /** `_grantable`: a scan of the holders that stops at the first clash. */
    static method CanGrant(holders: map<TxId, Mode>, row: bool, wanted: Mode, t: TxId) returns (ok: bool)
      ensures ok <==> forall u :: u in holders && u != t ==> !Clash(row, holders[u], wanted)
    {
      var todo := holders.Keys;
      while todo != {}
        invariant todo <= holders.Keys
        invariant forall u :: u in holders && u !in todo && u != t ==> !Clash(row, holders[u], wanted)
        decreases |todo|
      {
        var u :| u in todo;
        todo := todo - {u};
        if u != t {
          if row {
            if wanted == X || holders[u] == X { return false; }
          } else {
            if !Compatible(holders[u], wanted) { return false; }
          }
        }
      }
      ok := true;
    }

    /** One pass of `_acquire`: out of the waiters when granted, into them when not. */
    method Acquire(r: Resource, t: TxId, wanted: Mode) returns (ok: bool)
      modifies this`resources
      ensures ok == Grantable(At(old(resources), r).holders, r.Row?, wanted, t)
      ensures Now() == if ok then Unwait(old(Now()), r, t) else Wait(old(Now()), r, t)
    {
      ok := CanGrant(At(resources, r).holders, r.Row?, wanted, t);
      if !ok {
        var e := At(resources, r);
        resources := resources[r := e.(waiters := e.waiters + {t})];
      } else if r in resources {
        var e := resources[r];
        resources := resources[r := e.(waiters := e.waiters - {t})];
      }
    }

    method AcquireTable(t: TxId, n: Name, m: Mode) returns (ok: bool)
      modifies this`resources, this`txTables
      ensures (Now(), ok) == TryTable(old(Now()), t, n, m)
    {
      if (t, n) in txTables && Covers(txTables[(t, n)], m) {
        return true;
      }
      ok := Acquire(Table(n), t, m);
      if ok {
        Record(t, n, m);
      }
    }

    /** `_record_table`. */
    method Record(t: TxId, n: Name, m: Mode)
      modifies this`resources, this`txTables
      ensures Now() == RecordTable(old(Now()), t, n, m)
    {
      var mode := Merge(if (t, n) in txTables then Some(txTables[(t, n)]) else None, m);
      txTables := txTables[(t, n) := mode];
      var e := At(resources, Table(n));
      resources := resources[Table(n) := e.(holders := e.holders[t := mode])];
    }

    method AcquireRow(t: TxId, n: Name, k: Key, m: Mode) returns (ok: bool)
      modifies this
      ensures (Now(), ok) == TryRow(old(Now()), limit, t, n, k, m)
    {
      hide TryTable, RecordRow, Escalate, Wait, Unwait, Grantable;
      if (t, n) in escalated {
        ok := AcquireTable(t, n, X);
        return;
      }
      ok := AcquireTable(t, n, if m == X then IX else IS);
      if !ok { return; }
      ok := Acquire(Row(n, k), t, m);
      if !ok { return; }
      NoteRow(t, n, k, m);
      assert (t, n) in txRows && Now().Rows(t, n) == txRows[(t, n)];
      if |txRows[(t, n)]| >= limit {
        DoEscalate(t, n);
      }
    }

    method NoteRow(t: TxId, n: Name, k: Key, m: Mode)
      modifies this`resources, this`txRows
      ensures Now() == RecordRow(old(Now()), t, n, k, m) && (t, n) in txRows
    {
      var e := At(resources, Row(n, k));
      resources := resources[Row(n, k) := e.(holders := e.holders[t := m])];
      txRows := txRows[(t, n) := (if (t, n) in txRows then txRows[(t, n)] else {}) + {k}];
    }

    /** Takes `t` off the holders of `r` and forgets an entry left with nobody. */
    method Drop(r: Resource, t: TxId, ghost all: Resources, ghost gone: set<Resource>)
      requires resources == Stripped(all, t, gone) && r !in gone
      modifies this`resources
      ensures resources == Stripped(all, t, gone + {r})
    {
      StripOne(all, t, gone, r);
      if r in resources {
        var e := Left(resources[r], t);
        resources := if e.holders == map[] && e.waiters == {} then resources - {r} else resources[r := e];
      }
    }

    /** The loops of `_escalate` and `release_all` over resources to give up. */
    method DropEach(rs: set<Resource>, t: TxId, ghost all: Resources, ghost gone: set<Resource>)
      requires resources == Stripped(all, t, gone) && rs !! gone
      modifies this`resources
      ensures resources == Stripped(all, t, gone + rs)
    {
      var todo := rs;
      ghost var done := gone;
      hide Stripped;
      assert gone + (rs - todo) == gone;
      while todo != {}
        invariant todo <= rs && done == gone + (rs - todo)
        invariant resources == Stripped(all, t, done)
        decreases |todo|
      {
        var r :| r in todo;
        Drop(r, t, all, done);
        done := done + {r};
        todo := todo - {r};
      }
      assert gone + rs == done;
    }

    /** `_escalate`. */
    method DoEscalate(t: TxId, n: Name)
      modifies this
      ensures Now() == Escalate(old(Now()), t, n)
    {
      ghost var all := resources;
      StripNone(all, t);
      escalated := escalated + {(t, n)};
      var keys := if (t, n) in txRows then txRows[(t, n)] else {};
      DropEach(RowLocks(n, keys), t, all, {});
      assert {} + RowLocks(n, keys) == RowLocks(n, keys);
      txRows := txRows[(t, n) := {}];
      var free := CanGrant(At(resources, Table(n)).holders, false, X, t);
      if free {
        Record(t, n, X);
      }
    }

    /** The end of a wait by timeout or as a deadlock victim. */
    method Leave(t: TxId, r: Resource)
      modifies this`resources
      ensures Now() == Unwait(old(Now()), r, t)
    {
      if r in resources {
        resources := resources[r := resources[r].(waiters := resources[r].waiters - {t})];
      }
    }

    /** `release_all`: the table locks first, then the row locks. */
    method ReleaseEverything(t: TxId)
      modifies this
      ensures Now() == Release(old(Now()), t)
    {
      ghost var s := Now();
      StripNone(resources, t);
      var tables := set p | p in txTables.Keys && p.0 == t :: Table(p.1);
      var rows := set p, k | p in txRows.Keys && p.0 == t && k in txRows[p] :: Row(p.1, k);
      hide Stripped;
      DropEach(tables, t, s.resources, {});
      assert {} + tables == tables;
      txTables := map p | p in txTables && p.0 != t :: txTables[p];
      DropEach(rows, t, s.resources, tables);
      assert tables + rows == Owned(s, t);
      txRows := map p | p in txRows && p.0 != t :: txRows[p];
      escalated := set p | p in escalated && p.0 != t;
    }
  }
}
