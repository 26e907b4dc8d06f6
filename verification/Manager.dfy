/** Transaction ids, states and snapshots: `TransactionManager` of
    minidb/txn/manager.py.  Its log and lock calls are not part of this file. */
module Manager {
  import opened Basics
  import opened Versions

  /** The manager's books as a value.  Ids 1 .. next-1 have been given out. */
  datatype Txns = Txns(next: nat, status: StatusMap) {
    ghost predicate Ok() {
      next >= 1 && forall id :: id in status <==> 1 <= id < next
    }

    function ActiveIds(): set<TxId> {
      set id | id in status && status[id] == Active
    }

    function Begin(): Txns {
      Txns(next + 1, status[next := Active])
    }

    function Finish(t: TxId, outcome: Status): Txns {
      if t in status && status[t] == Active then this.(status := status[t := outcome]) else this
    }

    function Snap(t: TxId): Snapshot {
      Snapshot(t, next, ActiveIds())
    }

    /** After replay: every id up to the highest replayed one counts as committed. */
    function Bootstrap(max: nat): Txns {
      Txns(max + 1, map id | id in UpTo(max) + status.Keys ::
             if 1 <= id <= max then Committed else status[id])
    }

    /** The horizon `gc_tick` hands to the collector. */
    ghost function GcMark(): nat
    {
      if ActiveIds() == {} then next else MinOf(ActiveIds())
    }
  }

  /** A snapshot of a transaction that began after `books`. */
  ghost predicate Later(books: Txns, s: Snapshot, st: StatusMap) {
    && books.next <= s.txid && books.next <= s.takenAt && (forall id :: id in s.active ==> books.next <= id)
    && (forall id :: id in books.status ==> id in st && st[id] == books.status[id])
  }

  function UpTo(n: nat): (ids: set<TxId>)
    ensures forall id :: id in ids <==> 1 <= id <= n
  {
    if n == 0 then {} else UpTo(n - 1) + {n}
  }

  ghost function MinOf(s: set<nat>): (m: nat)
    requires s != {}
    ensures m in s && forall x :: x in s ==> m <= x
    decreases s
  {
    var a :| a in s;
    var rest := s - {a};
    assert forall x :: x in s ==> x == a || x in rest;
    if rest == {} then a
    else
      var b := MinOf(rest);
      if a <= b then a else b
  }

  datatype TxnStep = BeginTxn | CommitTxn(t: TxId) | AbortTxn(t: TxId)

  function Apply(m: Txns, a: TxnStep): Txns {
    match a
    case BeginTxn => m.Begin()
    case CommitTxn(t) => m.Finish(t, Committed)
    case AbortTxn(t) => m.Finish(t, Aborted)
  }

  function Run(m: Txns, steps: seq<TxnStep>): Txns
    decreases |steps|
  {
    if steps == [] then m else Run(Apply(m, steps[0]), steps[1..])
  }

  /** Ids are never forgotten and a final state never changes. */
  ghost predicate Extends(m: Txns, m': Txns) {
    && m.next <= m'.next
    && (forall id :: id in m.status ==> id in m'.status)
    && (forall id :: id in m.status && m.status[id] != Active ==> m'.status[id] == m.status[id])
  }

  lemma {:induction false} RunExtends(m: Txns, steps: seq<TxnStep>)
    requires m.Ok()
    ensures Run(m, steps).Ok() && Extends(m, Run(m, steps))
    decreases |steps|
  {
    if steps != [] {
      var m1 := Apply(m, steps[0]);
      assert m1.Ok() && Extends(m, m1);
      RunExtends(m1, steps[1..]);
    }
  }

  /** The books after recovery are in order, whatever id was replayed last. */
  lemma BootstrapOk(max: nat)
    ensures Txns(1, map[]).Bootstrap(max).Ok()
    ensures forall id :: 1 <= id <= max ==> IsCommitted(Txns(1, map[]).Bootstrap(max).status, id)
  {
    var m := Txns(1, map[]).Bootstrap(max);
    forall id ensures id in m.status <==> 1 <= id < m.next {
      assert id in m.status <==> id in UpTo(max);
    }
  }

  /** What a snapshot says of any transaction id is settled when it is taken. */
  lemma SnapshotStable(m: Txns, t: TxId, steps: seq<TxnStep>, id: TxId)
    requires m.Ok()
    ensures var s := m.Snap(t); var later := Run(m, steps).status;
      && s.CreatedVisible(id, later) == s.CreatedVisible(id, m.status)
      && s.DeletedVisible(id, later) == s.DeletedVisible(id, m.status)
  {
    RunExtends(m, steps);
    assert id in m.ActiveIds() <==> id in m.status && m.status[id] == Active;
  }

  /** The collector's mark is the highest bound, the next id included, below which no
      transaction is active. */
  lemma GcMarkIsHighest(m: Txns, bound: nat)
    requires m.Ok()
    ensures bound <= m.GcMark() <==> bound <= m.next && forall id :: id in m.ActiveIds() ==> bound <= id
  {
    var mark := m.GcMark();
    if m.ActiveIds() == {} {
      assert mark == m.next;
    } else {
      assert mark in m.ActiveIds() && mark < m.next;
    }
  }

  /** The collector's mark is low enough for a snapshot exactly while no
      transaction the snapshot found active has committed below it. */
  lemma GcMarkSafeExactly(m: Txns, t: TxId, steps: seq<TxnStep>)
    requires m.Ok() && t in m.status && m.status[t] == Active && Run(m, steps).status.Keys >= {t}
    requires Run(m, steps).status[t] == Active
    ensures var s := m.Snap(t); var m' := Run(m, steps);
      HorizonBelow(s, m'.status, m'.GcMark())
      <==> forall a :: a in s.active && a < m'.GcMark() ==> !IsCommitted(m'.status, a)
  {
    RunExtends(m, steps);
    var m' := Run(m, steps);
    var s := m.Snap(t);
    assert t in m'.ActiveIds();
    assert m'.GcMark() <= t < s.takenAt;
    assert forall a :: a in s.active ==> a in m.status;
  }

  class TransactionManager {
    var nextId: nat
    var active: set<TxId>
    var state: StatusMap

    ghost function Books(): Txns
      reads this
    {
      Txns(nextId, state)
    }

    ghost predicate Valid()
      reads this
    {
      Books().Ok() && active == Books().ActiveIds()
    }

    constructor ()
      ensures Valid() && Books() == Txns(1, map[])
    {
      nextId, active, state := 1, {}, map[];
    }

    method Begin() returns (txid: TxId)
      requires Valid()
      modifies this
      ensures Valid() && txid == old(nextId) && txid !in old(state)
      ensures Books() == old(Books()).Begin()
    {
      txid := nextId;
      nextId := txid + 1;
      active := active + {txid};
      state := state[txid := Active];
    }

    method TakeSnapshot(txid: TxId) returns (s: Snapshot)
      requires Valid()
      ensures s == Books().Snap(txid)
    {
      s := Snapshot(txid, nextId, active);
    }

    /** The part of `commit` after the log write; fails on a finished transaction. */
    method Commit(txid: TxId) returns (ok: bool)
      requires Valid()
      modifies this
      ensures Valid() && ok == (txid in old(Books()).ActiveIds())
      ensures Books() == old(Books()).Finish(txid, Committed)
    {
      if txid !in active {
        return false;
      }
      state := state[txid := Committed];
      active := active - {txid};
      ok := true;
    }

    method Abort(txid: TxId)
      requires Valid()
      modifies this
      ensures Valid() && Books() == old(Books()).Finish(txid, Aborted)
    {
      if txid in active {
        state := state[txid := Aborted];
        active := active - {txid};
      }
    }

    method Bootstrap(max: nat)
      modifies this
      ensures Books() == old(Books()).Bootstrap(max) && active == old(active)
      ensures old(Books()) == Txns(1, map[]) && old(active) == {} ==> Valid()
    {
      nextId := max + 1;
      var i := 1;
      while i <= max
        invariant 1 <= i <= max + 1 && nextId == max + 1 && active == old(active)
        invariant forall id :: id in state <==> 1 <= id < i || id in old(state)
        invariant forall id :: id in state ==> state[id] == if 1 <= id < i then Committed else old(state)[id]
      {
        state := state[i := Committed];
        i := i + 1;
      }
      assert state == old(Books()).Bootstrap(max).status;
    }
  }
}
