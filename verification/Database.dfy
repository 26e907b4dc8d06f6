/** Opening and checkpointing a database: the loops of `_recover`,
    `_apply_replay_record` and `checkpoint` in minidb/engine/database.py, over one
    table and the transaction manager. */
module Databases {
  import opened Basics
  import opened Versions
  import opened Manager
  import opened Chains
  import opened Wal
  import opened Recovery
  import Mvcc
  import B = BPlusTree
  import D = Durability
  import T = Tables

  /** The rows a checkpoint file lists, later entries winning. */
  function RowMap<R>(rows: seq<(Key, R)>): map<Key, R> {
    if rows == [] then map[] else RowMap(rows[..|rows| - 1])[rows[|rows| - 1].0 := rows[|rows| - 1].1]
  }

  /** The row counter after a replay: without a primary key column it has moved past
      every key that was inserted. */
  function Counter<R>(userPk: bool, start: nat, recs: seq<Record<R>>): nat {
    if recs == [] || userPk then start
    else
      var n, r := Counter(userPk, start, recs[..|recs| - 1]), recs[|recs| - 1];
      if r.InsertRec? && r.k >= n then r.k + 1 else n
  }

  lemma {:induction false} CounterIsPast<R>(start: nat, recs: seq<Record<R>>, i: nat)
    requires i < |recs| && recs[i].InsertRec?
    ensures Counter(false, start, recs) >= start && recs[i].k < Counter(false, start, recs)
  {
    var last := |recs| - 1;
    if i < last {
      assert recs[..last][i] == recs[i];
      CounterIsPast(start, recs[..last], i);
    } else {
      CounterGrows(start, recs[..last]);
    }
  }

  lemma {:induction false} CounterGrows<R>(start: nat, recs: seq<Record<R>>)
    ensures Counter(false, start, recs) >= start
  {
    if recs != [] { CounterGrows(start, recs[..|recs| - 1]); }
  }

  /** And no further than that. */
  lemma {:induction false} CounterIsLeast<R>(start: nat, recs: seq<Record<R>>, bound: nat)
    requires start <= bound && forall i :: 0 <= i < |recs| && recs[i].InsertRec? ==> recs[i].k < bound
    ensures Counter(false, start, recs) <= bound && Counter(true, start, recs) == start
  {
    if recs != [] { CounterIsLeast(start, recs[..|recs| - 1], bound); }
  }

  lemma {:induction false} RowMapKeys<R>(rows: seq<(Key, R)>, k: Key)
    ensures k in RowMap(rows) <==> exists i :: 0 <= i < |rows| && rows[i].0 == k
  {
    if rows != [] {
      var init := rows[..|rows| - 1];
      RowMapKeys(init, k);
      if i :| 0 <= i < |init| && init[i].0 == k {
        assert rows[i].0 == k;
      }
      if i :| 0 <= i < |rows| && rows[i].0 == k {
        assert i < |init| ==> init[i].0 == k;
      }
    }
  }

  lemma {:induction false} RowMapAt<R>(rows: seq<(Key, R)>, j: nat)
    requires j < |rows| && forall i, j :: 0 <= i < j < |rows| ==> rows[i].0 < rows[j].0
    ensures rows[j].0 in RowMap(rows) && RowMap(rows)[rows[j].0] == rows[j].1
    decreases |rows|
  {
    if j < |rows| - 1 {
      RowMapAt(rows[..|rows| - 1], j);
      assert rows[j].0 < rows[|rows| - 1].0;
    }
  }

  ghost predicate Lists<R>(items: seq<(Key, Chain<R>)>, chains: Stored<R>) {
    && (forall i, j :: 0 <= i < j < |items| ==> items[i].0 < items[j].0)
    && (forall i :: 0 <= i < |items| ==> items[i].1 != [] && items[i].0 in chains && items[i].1 == chains[items[i].0])
    && (forall k :: k in chains ==> exists i :: 0 <= i < |items| && items[i].0 == k)
  }

  ghost predicate NewestOf<R>(rows: seq<(Key, R)>, items: seq<(Key, Chain<R>)>) {
    |rows| <= |items| &&
    forall i :: 0 <= i < |rows| ==> items[i].1 != [] && rows[i] == (items[i].0, items[i].1[|items[i].1| - 1].row)
  }

  lemma NewestKey<R>(rows: seq<(Key, R)>, items: seq<(Key, Chain<R>)>, chains: Stored<R>, k: Key)
    requires Lists(items, chains) && NewestOf(rows, items) && |rows| == |items|
    ensures k in RowMap(rows) <==> k in chains
    ensures k in chains ==> chains[k] != [] && RowMap(rows)[k] == chains[k][|chains[k]| - 1].row
  {
    hide RowMap;
    RowMapKeys(rows, k);
    if k in chains {
      var j :| 0 <= j < |items| && items[j].0 == k;
      assert rows[j].0 == k;
      RowMapAt(rows, j);
    }
  }

  /** Listing the newest version of every chain is the payload of a checkpoint. */
  lemma NewestIsPayload<R>(rows: seq<(Key, R)>, items: seq<(Key, Chain<R>)>, chains: Stored<R>)
    requires Lists(items, chains) && NewestOf(rows, items) && |rows| == |items|
    ensures RowMap(rows) == D.Payload(chains)
    ensures forall i, j :: 0 <= i < j < |rows| ==> rows[i].0 < rows[j].0
  {
    var p := D.Payload(chains);
    assert forall i :: 0 <= i < |rows| ==> rows[i].0 == items[i].0;
    hide RowMap, Lists, NewestOf;
    forall k ensures k in RowMap(rows) <==> k in p {
      NewestKey(rows, items, chains, k);
    }
    forall k | k in p ensures RowMap(rows)[k] == p[k] {
      NewestKey(rows, items, chains, k);
    }
  }

  /** Replay leaves no empty chain behind. */
  lemma ReplayRecFull<R>(m: Stored<R>, r: Record<R>)
    requires forall k :: k in m ==> m[k] != []
    ensures ReplayRec(m, r).Some? ==> forall k :: k in ReplayRec(m, r).value ==> ReplayRec(m, r).value[k] != []
  {
  }

  /** The records that `read_wal` returns. */
  lemma {:induction false} KeptPlain<R>(log: seq<Record<R>>, committed: set<TxId>)
    ensures forall r :: r in Kept(log, committed) ==> !r.IsOutcome() && r.t in committed
  {
    if log != [] { KeptPlain(log[..|log| - 1], committed); }
  }

  lemma CollectedFull<R>(chains: Stored<R>, st: StatusMap, horizon: nat, skipped: set<Key>)
    requires forall k :: k in chains ==> chains[k] != []
    ensures forall k :: k in CollectAll(chains, st, horizon, skipped) ==>
              CollectAll(chains, st, horizon, skipped)[k] != []
  {
  }

  /** What a checkpoint makes of the chains: their keys lie in the leaves as `layout` says. */
  ghost function Swept<R>(chains: Stored<R>, books: Txns, layout: seq<seq<Key>>): Stored<R> {
    CollectAll(chains, books.status, books.next, B.Spared(layout, Alive(chains, books.status, books.next)))
  }

  lemma CounterOne<R>(userPk: bool, n: nat, r: Record<R>)
    ensures Counter(userPk, n, [r]) == if !userPk && r.InsertRec? && r.k >= n then r.k + 1 else n
  {
    assert [r][..0] == [];
  }

  /** A failed record fails the whole replay. */
  lemma {:induction false} ReplayFails<R>(m: Stored<R>, recs: seq<Record<R>>, n: nat)
    requires n <= |recs| && Replay(m, recs[..n]) == None
    ensures Replay(m, recs) == None
    decreases |recs| - n
  {
    if n == |recs| {
      assert recs[..n] == recs;
    } else {
      assert recs[..n + 1][..n] == recs[..n];
      ReplayFails(m, recs, n + 1);
    }
  }

  // -----------------------------------------------------------------
  // Checkpoint and restart
  // -----------------------------------------------------------------

  lemma LaterSees<R>(c: Chain<R>, books: Txns, base: Option<R>, s: Snapshot, st: StatusMap)
    requires books.Ok() && ChainInv(c, books.status, base, NoWriter) && Later(books, s, st)
    ensures RowSeen(c, s, st) == base
  {
    forall i | 0 <= i < |c| ensures s.Sees(c[i], st) <==> Live(c[i], books.status) {
      assert IdsOk(c[i], books.status);
    }
    assert VisibleIs(c, s, st, base);
    PickVisible(c, s, st, base);
  }

  /** Between transactions the next reader scans the committed rows. */
  lemma QuietRows<R>(m: Mvcc.State<R>, s: Snapshot, st: StatusMap)
    requires Mvcc.Inv(m) && m.txns.ActiveIds() == {} && Later(m.txns, s, st)
    ensures T.SeenRows(m.chains, s, st) == m.db
  {
    hide ChainInv, Later;
    forall k ensures Mvcc.Lookup(T.SeenRows(m.chains, s, st), k) == Mvcc.Lookup(m.db, k) {
      assert Mvcc.KeyInv(m, k);
      D.NoActiveNoWriter(m, k);
      LaterSees(m.ChainOf(k), m.txns, Mvcc.Lookup(m.db, k), s, st);
    }
    D.SameLookups(T.SeenRows(m.chains, s, st), m.db);
  }

  /** Rows out of a checkpoint file are there for every snapshot. */
  lemma LoadedRows<R>(rows: map<Key, R>, s: Snapshot, st: StatusMap)
    ensures T.SeenRows(Checkpointed(rows), s, st) == rows
  {
    forall k | k in rows ensures RowSeen(Checkpointed(rows)[k], s, st) == Some(rows[k]) {
      assert Pick([Version(rows[k], 0, 0)], s, st) == Some(Version(rows[k], 0, 0));
    }
  }

  /** Checkpoint, restart, scan: whatever snapshot reads the reopened table, its scan
      returns what the next reader would have got before the checkpoint exactly if
      no leaf then held two neighbouring keys without a live version. */
  lemma RestartScansExactly<R>(m: Mvcc.State<R>, layout: seq<seq<Key>>, before: seq<(Key, R)>, s: Snapshot,
                               st: StatusMap,
                               after: seq<(Key, R)>, s': Snapshot, st': StatusMap)
    requires Mvcc.Inv(m) && m.txns.ActiveIds() == {} && B.Laid(layout, m.chains.Keys) && Later(m.txns, s, st)
    requires T.Table<R>.ScanIs(before, m.chains, s, st)
    requires T.Table<R>.ScanIs(after, Checkpointed(D.Payload(Swept(m.chains, m.txns, layout))), s', st')
    ensures before == after <==> !D.DeadNeighbours(m, layout)
  {
    var rows := D.Payload(Swept(m.chains, m.txns, layout));
    assert rows == D.Payload(D.AfterGc(m, D.SkippedIn(m, layout)));
    D.CheckpointExactly(m, layout);
    QuietRows(m, s, st);
    LoadedRows(rows, s', st');
    T.ScanEnumerates(before, m.chains, s, st);
    T.ScanEnumerates(after, Checkpointed(rows), s', st');
    hide *;
    T.EnumeratesExactly(before, after, m.db, rows);
  }

  /** Recovery from an empty log is loading the checkpoint. */
  lemma FreshRecovery<R>(rows: map<Key, R>, n: nat, userPk: bool)
    ensures Physical<R>([]) == [] && Kept<R>([], D.CommittedSet<R>([])) == []
    ensures D.Reopened<R>([]) == Txns(1, map[]) && Counter<R>(userPk, n, []) == n
    ensures Replay(Checkpointed(rows), []) == Some(Checkpointed(rows))
  {
    assert forall t: TxId :: t in D.CommittedSet<R>([]) <==> CommittedIn<R>([], t);
    assert D.CommittedSet<R>([]) == {};
    assert MaxId({}) == 0;
    var none: StatusMap := map[];
    assert UpTo(0) + none.Keys == {};
  }

  class Database<R> {
    const table: T.Table<R>
    const manager: TransactionManager

    ghost predicate Valid()
      reads table, table.tree, table.tree.nodes, manager
    {
      table.Valid() && manager.Valid() && forall k :: k in table.Chains() ==> table.Chains()[k] != []
    }

    constructor (hasUserPk: bool, order: nat)
      requires order >= 3
      ensures Valid() && fresh(table) && fresh(table.tree) && fresh(table.tree.nodes) && fresh(manager)
      ensures table.Chains() == map[] && table.hasUserPk == hasUserPk
      ensures manager.Books() == Txns(1, map[]) && manager.active == {}
    {
      table := new T.Table<R>(hasUserPk, order);
      manager := new TransactionManager();
    }

    /** `_apply_replay_record`: fails on an update or delete of a key without chain. */
    method ApplyRecord(r: Record<R>) returns (ok: bool)
      requires Valid() && !r.IsOutcome()
      modifies table, table.tree, table.tree.nodes
      ensures Valid() && fresh(table.tree.nodes - old(table.tree.nodes))
      ensures ReplayRec(old(table.Chains()), r) == if ok then Some(table.Chains()) else None
      ensures ok ==> table.nextRowid == Counter(table.hasUserPk, old(table.nextRowid), [r])
    {
      hide T.B.BPlusTree.Valid;
      ReplayRecFull(table.Chains(), r);
      match r
      case InsertRec(t, k, row) =>
        table.Insert(t, row, k);
        table.BumpRowid(k);
        assert [r][..0] == [];
        ok := true;
      case UpdateRec(t, k, row) =>
        var chain := table.tree.Get(k);
        if chain == None { return false; }
        table.tree.Insert(k, MarkLast(chain.value, t) + [Version(row, t, 0)]);
        ok := true;
      case DeleteRec(t, k) =>
        var chain := table.tree.Get(k);
        if chain == None { return false; }
        table.tree.Insert(k, MarkLast(chain.value, t));
        ok := true;
      case _ =>
        ok := true;
    }

    /** Step 1 of `_recover`: one committed version per checkpointed row. */
    method LoadCheckpoint(rows: seq<(Key, R)>, nextRowid: nat)
      requires Valid() && table.Chains() == map[]
      modifies table, table.tree, table.tree.nodes
      ensures Valid() && fresh(table.tree.nodes - old(table.tree.nodes))
      ensures table.Chains() == Checkpointed(RowMap(rows)) && table.nextRowid == nextRowid
    {
      hide T.B.BPlusTree.Valid;
      table.nextRowid := nextRowid;
      var i := 0;
      while i < |rows|
        invariant 0 <= i <= |rows| && Valid() && fresh(table.tree.nodes - old(table.tree.nodes))
        invariant table.Chains() == Checkpointed(RowMap(rows[..i])) && table.nextRowid == nextRowid
      {
        assert rows[..i + 1][..i] == rows[..i];
        table.tree.Insert(rows[i].0, [Version(rows[i].1, 0, 0)]);
        i := i + 1;
      }
      assert rows[..i] == rows;
    }

    /** Step 2: the records one by one, the highest id kept along the way. */
    method ReplayAll(records: seq<Record<R>>, start: nat) returns (ok: bool, top: nat)
      requires Valid() && forall r :: r in records ==> !r.IsOutcome() && r.t <= start
      modifies table, table.tree, table.tree.nodes
      ensures Valid() && fresh(table.tree.nodes - old(table.tree.nodes)) && top == start
      ensures Replay(old(table.Chains()), records) == if ok then Some(table.Chains()) else None
      ensures ok ==> table.nextRowid == Counter(table.hasUserPk, old(table.nextRowid), records)
    {
      hide Valid, ReplayRec;
      top := start;
      ghost var before, counter := table.Chains(), table.nextRowid;
      var i := 0;
      while i < |records|
        invariant 0 <= i <= |records| && top == start
        invariant Valid() && fresh(table.tree.nodes - old(table.tree.nodes))
        invariant Replay(before, records[..i]) == Some(table.Chains())
        invariant table.nextRowid == Counter(table.hasUserPk, counter, records[..i])
      {
        assert records[..i + 1][..i] == records[..i] && records[..i + 1][i] == records[i];
        assert records[i] in records;
        var id: nat := records[i].t;
        if id > top { top := id; }
        CounterOne(table.hasUserPk, table.nextRowid, records[i]);
        ok := ApplyRecord(records[i]);
        if !ok {
          ReplayFails(before, records, i + 1);
          return;
        }
        i := i + 1;
      }
      assert records[..i] == records;
      ok := true;
    }

    /** `_recover`.  The records of committed transactions are replayed over the
        checkpoint, and every id up to the highest of them counts as committed.
        If the log came about as logs do, nothing fails and every later snapshot reads
        for each key the row that the committed transactions, in commit order, left
        there; exactly unless they left none and an insert of theirs had met a row. */
    method Recover(rows: seq<(Key, R)>, nextRowid: nat, log: seq<Record<R>>,
                   ghost entries: seq<Entry<R>>) returns (ok: bool)
      requires Valid() && table.Chains() == map[] && manager.Books() == Txns(1, map[]) && manager.active == {}
      requires Physical(entries) == log
      modifies table, table.tree, table.tree.nodes, manager
      ensures fresh(table.tree.nodes - old(table.tree.nodes)) && Valid()
      ensures var kept := Kept(log, D.CommittedSet(entries));
        && Replay(Checkpointed(RowMap(rows)), kept) == (if ok then Some(table.Chains()) else None)
        && (ok ==> manager.Books() == D.Reopened(entries))
        && (ok ==> table.nextRowid == Counter(table.hasUserPk, nextRowid, kept))
      ensures ValidLog(RowMap(rows), entries) ==> ok
      ensures ValidLog(RowMap(rows), entries) ==>
        var db, committed := Meaning(RowMap(rows), entries).db, D.CommittedSet(entries);
        forall k, s, st :: Later(manager.Books(), s, st) ==>
          (RowSeen(ChainAt(table.Chains(), k), s, st) == Mvcc.Lookup(db, k)
           <==> k in db || CleanAt(RowMap(rows), entries, committed, k))
    {
      hide T.Table.Valid, Kept, Replay, ValidLog, Meaning, CleanAt, RowSeen, Later, Knows;
      LoadCheckpoint(rows, nextRowid);
      var committed, records := ReadWal(log);
      assert committed == D.CommittedSet(entries);
      KeptPlain(log, committed);
      var max := Highest(committed);
      ok, max := ReplayAll(records, max);
      if ok {
        manager.Bootstrap(max);
      }
      if ValidLog(RowMap(rows), entries) {
        RecoveryIsExact(RowMap(rows), entries, committed);
        ZeroNotCommitted(RowMap(rows), entries);
        forall s, st | Later(D.Reopened(entries), s, st) ensures Knows(s, st, committed) {
          D.LaterKnows(committed, s, st);
        }
      }
    }

    /** `checkpoint`: refused while a transaction is active; otherwise collects and
        writes the newest version of each chain, in key order. */
    method Checkpoint() returns (file: Option<(seq<(Key, R)>, nat)>)
      requires Valid()
      modifies table.tree, table.tree.nodes
      ensures Valid() && fresh(table.tree.nodes - old(table.tree.nodes))
      ensures file.Some? <==> manager.Books().ActiveIds() == {}
      ensures file.None? ==> table.Chains() == old(table.Chains())
      ensures file.Some? ==>
        && table.Chains() == Swept(old(table.Chains()), manager.Books(), old(table.tree.Layout()))
        && RowMap(file.value.0) == D.Payload(table.Chains()) && file.value.1 == table.nextRowid
        && forall i, j :: 0 <= i < j < |file.value.0| ==> file.value.0[i].0 < file.value.0[j].0
    {
      hide T.Table.Valid, GcChain, B.Spared, Alive, CollectAll;
      if manager.active != {} {
        return None;
      }
      ghost var st, next := manager.state, manager.nextId;
      CollectedFull(table.Chains(), st, next, B.Spared(table.tree.Layout(), Alive(table.Chains(), st, next)));
      table.Gc(manager.state, manager.nextId);
      var rows := Newest();
      file := Some((rows, table.nextRowid));
    }

    /** `shutdown` with its checkpoint, then a new `Database` over the file and the
        emptied log: the rows, one version each, and the row counter. */
    method Restart() returns (reopened: Option<Database<R>>)
      requires Valid()
      modifies table.tree, table.tree.nodes
      ensures reopened.Some? <==> manager.Books().ActiveIds() == {}
      ensures reopened.Some? ==>
        var db := reopened.value;
        && fresh(db) && db.Valid() && db.manager.Books() == Txns(1, map[])
        && db.table.Chains()
           == Checkpointed(D.Payload(Swept(old(table.Chains()), manager.Books(), old(table.tree.Layout()))))
        && db.table.nextRowid == table.nextRowid && db.table.hasUserPk == table.hasUserPk
    {
      hide T.Table.Valid, Swept, RowMap, D.Payload;
      var file := Checkpoint();
      if file == None {
        return None;
      }
      var db := new Database<R>(table.hasUserPk, 32);
      FreshRecovery(RowMap(file.value.0), file.value.1, table.hasUserPk);
      var _ := db.Recover(file.value.0, file.value.1, [], []);
      reopened := Some(db);
    }

    /** The loop over `items`. */
    method Newest() returns (rows: seq<(Key, R)>)
      requires Valid()
      ensures RowMap(rows) == D.Payload(table.Chains())
      ensures forall i, j :: 0 <= i < j < |rows| ==> rows[i].0 < rows[j].0
    {
      hide T.B.BPlusTree.Valid, T.B.BPlusTree.Complete;
      var items := table.tree.Range(None, None);
      table.ItemsAreAll(items);
      ghost var chains := table.Chains();
      assert Lists(items, chains) by {
        assert forall k :: k in chains ==> chains[k] != [];
        assert forall i :: 0 <= i < |items| ==> items[i].0 in chains && items[i].1 == chains[items[i].0];
      }
      rows := [];
      var i := 0;
      while i < |items|
        invariant 0 <= i <= |items| && |rows| == i && NewestOf(rows, items)
      {
        var chain := items[i].1;
        rows := rows + [(items[i].0, chain[|chain| - 1].row)];
        i := i + 1;
      }
      NewestIsPayload(rows, items, table.Chains());
    }
  }
}
