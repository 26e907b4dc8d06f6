/** Row versions and their visibility: `Version` and `_pick_visible` of
    minidb/storage/table.py, `Snapshot` of minidb/txn/manager.py, and what the
    table operations and the garbage collector do to one version chain.

    Transaction id 0 is no transaction: as `xmin` it marks a row loaded from a
    checkpoint, as `xmax` a version that nobody deleted. */
module Versions {
  import opened Basics

  datatype Status = Active | Committed | Aborted

  type StatusMap = map<TxId, Status>

  datatype Version<R> = Version(row: R, xmin: TxId, xmax: TxId)

  predicate IsCommitted(st: StatusMap, id: TxId) {
    id in st && st[id] == Committed
  }

  predicate IsAborted(st: StatusMap, id: TxId) {
    id in st && st[id] == Aborted
  }

  datatype Snapshot = Snapshot(txid: TxId, takenAt: nat, active: set<TxId>) {
    /** The creating transaction's effect shows in this snapshot. */
    predicate CreatedVisible(xmin: TxId, st: StatusMap) {
      if xmin == 0 then true
      else if xmin == txid then true
      else if xmin >= takenAt then false
      else if xmin in active then false
      else IsCommitted(st, xmin)
    }

    /** The deletion shows in this snapshot: the version is gone. */
    predicate DeletedVisible(xmax: TxId, st: StatusMap) {
      if xmax == 0 then false
      else if xmax == txid then true
      else if xmax >= takenAt then false
      else if xmax in active then false
      else IsCommitted(st, xmax)
    }

    predicate Sees<R>(v: Version<R>, st: StatusMap) {
      CreatedVisible(v.xmin, st) && !DeletedVisible(v.xmax, st)
    }
  }

  type Chain<R> = seq<Version<R>>

  /** The newest visible version; newer ones sit at the end of the chain. */
  function Pick<R>(c: Chain<R>, s: Snapshot, st: StatusMap): Option<Version<R>> {
    if c == [] then None
    else if s.Sees(c[|c| - 1], st) then Some(c[|c| - 1])
    else Pick(c[..|c| - 1], s, st)
  }

  /** The row a reader gets. */
  function RowSeen<R>(c: Chain<R>, s: Snapshot, st: StatusMap): Option<R> {
    match Pick(c, s, st)
    case Some(v) => Some(v.row)
    case None => None
  }

  /** What `Pick` finds, said without the search order. */
  lemma {:induction false} PickMeaning<R>(c: Chain<R>, s: Snapshot, st: StatusMap)
    ensures Pick(c, s, st) == None <==> forall i :: 0 <= i < |c| ==> !s.Sees(c[i], st)
    ensures Pick(c, s, st) != None ==>
              exists i :: 0 <= i < |c| && c[i] == Pick(c, s, st).value && s.Sees(c[i], st)
                && forall j :: i < j < |c| ==> !s.Sees(c[j], st)
  {
    if c != [] {
      var front := c[..|c| - 1];
      if s.Sees(c[|c| - 1], st) {
        assert c[|c| - 1] == Pick(c, s, st).value;
      } else {
        PickMeaning(front, s, st);
        assert forall i :: 0 <= i < |front| ==> front[i] == c[i];
        if Pick(c, s, st) != None {
          var i :| 0 <= i < |front| && front[i] == Pick(c, s, st).value && s.Sees(front[i], st)
            && forall j :: i < j < |front| ==> !s.Sees(front[j], st);
          assert c[i] == Pick(c, s, st).value;
        }
      }
    }
  }

  // -----------------------------------------------------------------
  // What the table operations do to a chain
  // -----------------------------------------------------------------

  /** Index of the newest version that `t` created and nobody deleted. */
  function OwnIndex<R>(c: Chain<R>, t: TxId): (r: Option<nat>)
    ensures r.Some? ==> r.value < |c| && c[r.value].xmin == t && c[r.value].xmax == 0
    ensures r.None? ==> forall i :: 0 <= i < |c| ==> !(c[i].xmin == t && c[i].xmax == 0)
    ensures r.Some? ==> forall i :: r.value < i < |c| ==> !(c[i].xmin == t && c[i].xmax == 0)
  {
    if c == [] then None
    else if c[|c| - 1].xmin == t && c[|c| - 1].xmax == 0 then Some(|c| - 1)
    else OwnIndex(c[..|c| - 1], t)
  }

  function InsertChain<R>(c: Chain<R>, t: TxId, row: R): Chain<R> {
    c + [Version(row, t, 0)]
  }

  function MarkLast<R>(c: Chain<R>, t: TxId): Chain<R>
    requires c != []
  {
    c[|c| - 1 := c[|c| - 1].(xmax := t)]
  }

  function UpdateChain<R>(c: Chain<R>, t: TxId, row: R): Chain<R>
    requires c != []
  {
    match OwnIndex(c, t)
    case Some(i) => c[i := c[i].(row := row)]
    case None => MarkLast(c, t) + [Version(row, t, 0)]
  }

  /** The new chain, and whether anything was deleted. */
  function DeleteChain<R>(c: Chain<R>, t: TxId): (Chain<R>, bool)
    requires c != []
  {
    match OwnIndex(c, t)
    case Some(i) => (c[..i] + c[i + 1..], true)
    case None =>
      if c[|c| - 1].xmax != 0 then (c, false) else (MarkLast(c, t), true)
  }

  /** A delete reports a row exactly if it changes the chain; it reports none exactly if
      the transaction has no undeleted version of its own and the last version already
      carries a mark, whoever set it. */
  lemma DeleteReportsExactly<R>(c: Chain<R>, t: TxId)
    requires c != [] && t > 0
    ensures DeleteChain(c, t).1 <==> DeleteChain(c, t).0 != c
    ensures !DeleteChain(c, t).1
       <==> (forall i :: 0 <= i < |c| && c[i].xmin == t ==> c[i].xmax != 0) && c[|c| - 1].xmax != 0
  {
    var d := DeleteChain(c, t).0;
    match OwnIndex(c, t)
    case Some(i) => assert |d| == |c| - 1;
    case None => assert c[|c| - 1].xmax == 0 ==> d[|c| - 1].xmax == t;
  }

  /** A delete that was rolled back leaves its mark, and the next delete reports no row. */
  lemma DeleteAfterRollback()
    ensures var c := [Version("row", 0, 1)];
      DeleteChain(c, 2) == (c, false) && Pick(c, Snapshot(2, 3, {2}), map[1 := Aborted, 2 := Active]) == Some(c[0])
  {
    var c := [Version("row", 0, 1)];
    assert c[..0] == [];
  }

  // -----------------------------------------------------------------
  // Garbage collection
  // -----------------------------------------------------------------

  predicate Reclaimable<R>(v: Version<R>, st: StatusMap, horizon: nat) {
    || (v.xmin < horizon && IsAborted(st, v.xmin))
    || (v.xmax != 0 && v.xmax < horizon && IsCommitted(st, v.xmax))
  }

  function GcChain<R>(c: Chain<R>, st: StatusMap, horizon: nat): Chain<R> {
    if c == [] then []
    else if Reclaimable(c[|c| - 1], st, horizon) then GcChain(c[..|c| - 1], st, horizon)
    else GcChain(c[..|c| - 1], st, horizon) + [c[|c| - 1]]
  }

  /** What collection takes away: a version stays exactly if its creator has not aborted
      below the mark and no transaction that committed below it has deleted it. */
  lemma {:induction false} CollectsExactly<R>(c: Chain<R>, st: StatusMap, mark: nat, v: Version<R>)
    ensures v in GcChain(c, st, mark) <==>
              v in c
              && !(v.xmin < mark && v.xmin in st && st[v.xmin] == Aborted)
              && !(0 < v.xmax < mark && v.xmax in st && st[v.xmax] == Committed)
  {
    if c != [] {
      CollectsExactly(c[..|c| - 1], st, mark, v);
      assert c == c[..|c| - 1] + [c[|c| - 1]];
    }
  }

  /** No transaction that committed below the horizon is hidden from `s`. */
  predicate HorizonBelow(s: Snapshot, st: StatusMap, horizon: nat) {
    forall id :: id in st && 0 < id < horizon && st[id] == Committed ==> id < s.takenAt && id !in s.active
  }

  /** A snapshot whose own transaction has not finished. */
  predicate LiveSnapshot(s: Snapshot, st: StatusMap) {
    s.txid in st && st[s.txid] == Active && s.txid < s.takenAt
  }

  lemma {:induction false} GcKeepsPick<R>(c: Chain<R>, s: Snapshot, st: StatusMap, horizon: nat)
    requires LiveSnapshot(s, st) && HorizonBelow(s, st, horizon) && 0 !in st
    ensures Pick(GcChain(c, st, horizon), s, st) == Pick(c, s, st)
  {
    if c != [] {
      var front := c[..|c| - 1];
      GcKeepsPick(front, s, st, horizon);
      var g := GcChain(front, st, horizon);
      assert (g + [c[|c| - 1]])[..|g|] == g;
    }
  }

  /** A checkpointed row that transaction `id` deleted or overwrote. */
  function Replaced<R>(row: R, id: TxId): Chain<R> {
    [Version(row, 0, id)]
  }

  /** Collection is invisible to a live snapshot, whatever the chain, exactly
      when the horizon is not above a committed transaction hidden from it. */
  lemma GcInvisibleExactly<R>(s: Snapshot, st: StatusMap, horizon: nat, row: R)
    requires LiveSnapshot(s, st) && 0 !in st
    ensures (forall c: Chain<R> :: Pick(GcChain(c, st, horizon), s, st) == Pick(c, s, st))
            <==> HorizonBelow(s, st, horizon)
  {
    if HorizonBelow(s, st, horizon) {
      forall c: Chain<R> ensures Pick(GcChain(c, st, horizon), s, st) == Pick(c, s, st) {
        GcKeepsPick(c, s, st, horizon);
      }
    } else {
      var id :| id in st && 0 < id < horizon && st[id] == Committed && !(id < s.takenAt && id !in s.active);
      var c := Replaced(row, id);
      assert Reclaimable(c[0], st, horizon) && c[..0] == [];
      assert GcChain(c, st, horizon) == [];
      assert s.Sees(c[0], st) && Pick(c, s, st) == Some(c[0]);
      assert Pick(GcChain(c, st, horizon), s, st) != Pick(c, s, st);
      assert exists c: Chain<R> :: Pick(GcChain(c, st, horizon), s, st) != Pick(c, s, st);
    }
  }

  /** The mark `gc_tick` uses, the oldest transaction still active, can be above
      the horizon a live snapshot needs: a transaction active when the snapshot
      was taken may have committed since. */
  lemma GcMarkTooHigh()
    ensures var st := map[1 := Committed, 2 := Active];
            var s := Snapshot(2, 3, {1, 2});
            var c := [Version("old", 0, 1), Version("new", 1, 0)];
            && LiveSnapshot(s, st) && (forall id :: id in st && st[id] == Active ==> 2 <= id)
            && Pick(c, s, st) == Some(c[0]) && Pick(GcChain(c, st, 2), s, st) == None
  {
    var st: StatusMap := map[1 := Committed, 2 := Active];
    var s := Snapshot(2, 3, {1, 2});
    var c := [Version("old", 0, 1), Version("new", 1, 0)];
    assert c[..1] == [c[0]] && [c[0]][..0] == [];
    assert Pick([c[0]], s, st) == Some(c[0]);
    assert GcChain([c[0]], st, 2) == [];
    assert GcChain(c, st, 2) == [c[1]];
    assert [c[1]][..0] == [];
  }
}
