/** Runs of the engine: transactions that begin, take snapshots, lock, write,
    commit, abort, while the collector cuts in between any two steps.  One table;
    a key here stands for a (table, key) pair of the source.

    The state carries, beside the engine's own data, a reference database that
    buffers the writes of each transaction and merges them at commit.  The
    invariant says that reading through version chains and snapshots is reading
    the reference database as it was when the snapshot was taken. */
module Mvcc {
  import opened Basics
  import opened Versions
  import opened Manager
  import opened Chains

  /** A snapshot in use: `view` is the reference database of its moment, `locked`
      the keys its transaction had locked by then. */
  datatype SnapRec<R(==)> = SnapRec(snap: Snapshot, view: map<Key, R>, locked: set<Key>)

  datatype State<R(==)> = State(
    txns: Txns,
    chains: map<Key, Chain<R>>,
    owner: map<Key, TxId>,                  // row X locks
    snaps: set<SnapRec<R>>,
    db: map<Key, R>,                        // reference: committed rows
    writes: map<TxId, map<Key, Option<R>>>) // reference: buffered writes
  {
    function ChainOf(k: Key): Chain<R> {
      if k in chains then chains[k] else []
    }

    function WritesOf(t: TxId): map<Key, Option<R>> {
      if t in writes then writes[t] else map[]
    }

    function PendingOf(k: Key): Pending<R> {
      if k in owner && k in WritesOf(owner[k]) then Writer(owner[k], WritesOf(owner[k])[k]) else NoWriter
    }

    function LockedBy(t: TxId): set<Key> {
      set k | k in owner && owner[k] == t
    }

    predicate Running(t: TxId) {
      IsActive(txns.status, t)
    }
  }

  function Lookup<R>(m: map<Key, R>, k: Key): Option<R> {
    if k in m then Some(m[k]) else None
  }

  datatype Action<R(==)> =
    | BeginTx
    | Take(t: TxId)
    | Drop(r: SnapRec<R>)
    | Lock(t: TxId, k: Key)
    | Insert(r: SnapRec<R>, k: Key, row: R)
    | Update(r: SnapRec<R>, k: Key, row: R)
    | Delete(r: SnapRec<R>, k: Key)
    | Commit(t: TxId)
    | Abort(t: TxId)
    | Release(t: TxId)
    | Gc(horizon: nat, skipped: set<Key>)

  /** The writer has the row lock; its snapshot may be older than the lock. */
  predicate Holds<R(==)>(s: State<R>, r: SnapRec<R>, k: Key) {
    r in s.snaps && k in s.owner && s.owner[k] == r.snap.txid
  }

  /** The snapshot the executor takes after it has locked the key. */
  predicate PostLock<R(==)>(s: State<R>, r: SnapRec<R>, k: Key) {
    r in s.snaps && k in r.locked
  }

  predicate Enabled<R(==)>(s: State<R>, a: Action<R>) {
    match a
    case BeginTx => true
    case Take(t) => s.Running(t)
    case Drop(r) => r in s.snaps
    case Lock(t, k) => s.Running(t) && (k in s.owner ==> s.owner[k] == t)
    case Insert(r, k, row) =>
      && Holds(s, r, k) && Pick(s.ChainOf(k), r.snap, s.txns.status) == None
      && InsertFits(s.ChainOf(k), s.txns.status, r.snap.txid)
    case Update(r, k, row) =>
      && Holds(s, r, k) && Pick(s.ChainOf(k), r.snap, s.txns.status) != None
      && UpdateFits(s.ChainOf(k), s.txns.status, r.snap.txid)
    case Delete(r, k) =>
      && Holds(s, r, k) && Pick(s.ChainOf(k), r.snap, s.txns.status) != None
      && DeleteFits(s.ChainOf(k), s.txns.status, r.snap.txid)
    case Commit(t) => s.Running(t)
    case Abort(t) => s.Running(t)
    case Release(t) => t in s.txns.status && !s.Running(t)
    case Gc(horizon, skipped) => forall r :: r in s.snaps ==> HorizonBelow(r.snap, s.txns.status, horizon)
  }

  function SetChain<R(==)>(s: State<R>, k: Key, c: Chain<R>): map<Key, Chain<R>> {
    if c == [] then s.chains - {k} else s.chains[k := c]
  }

  function Written<R(==)>(s: State<R>, t: TxId, k: Key, c: Chain<R>, value: Option<R>): State<R> {
    s.(chains := SetChain(s, k, c), writes := s.writes[t := s.WritesOf(t)[k := value]])
  }

  function Merge<R>(db: map<Key, R>, w: map<Key, Option<R>>): map<Key, R> {
    map k | k in db.Keys + w.Keys && (k in w ==> w[k].Some?) :: if k in w then w[k].value else db[k]
  }

  /** The state change of a transaction becomes known; its locks stay for now. */
  function Finished<R(==)>(s: State<R>, t: TxId, outcome: Status): State<R> {
    s.(txns := s.txns.Finish(t, outcome),
       snaps := (set r | r in s.snaps && r.snap.txid != t),
       writes := s.writes - {t})
  }

  function Next<R(==)>(s: State<R>, a: Action<R>): State<R>
    requires Enabled(s, a)
  {
    match a
    case BeginTx => s.(txns := s.txns.Begin())
    case Take(t) => s.(snaps := s.snaps + {SnapRec(s.txns.Snap(t), s.db, s.LockedBy(t))})
    case Drop(r) => s.(snaps := s.snaps - {r})
    case Lock(t, k) => s.(owner := s.owner[k := t])
    case Insert(r, k, row) =>
      Written(s, r.snap.txid, k, InsertChain(s.ChainOf(k), r.snap.txid, row), Some(row))
    case Update(r, k, row) =>
      Written(s, r.snap.txid, k, UpdateChain(s.ChainOf(k), r.snap.txid, row), Some(row))
    case Delete(r, k) =>
      Written(s, r.snap.txid, k, DeleteChain(s.ChainOf(k), r.snap.txid).0, None)
    case Commit(t) => Finished(s, t, Committed).(db := Merge(s.db, s.WritesOf(t)))
    case Abort(t) => Finished(s, t, Aborted)
    case Release(t) => s.(owner := map k | k in s.owner && s.owner[k] != t :: s.owner[k])
    case Gc(horizon, skipped) => s.(chains := CollectAll(s.chains, s.txns.status, horizon, skipped))
  }

  /** A fresh engine over checkpointed rows; `next` is the first id to give out. */
  function Start<R(==)>(rows: map<Key, R>, txns: Txns): State<R> {
    State(txns, map k | k in rows :: [Version(rows[k], 0, 0)], map[], {}, rows, map[])
  }

  // -----------------------------------------------------------------
  // The invariant
  // -----------------------------------------------------------------

  ghost predicate KeyInv<R>(s: State<R>, k: Key) {
    ChainInv(s.ChainOf(k), s.txns.status, Lookup(s.db, k), s.PendingOf(k))
  }

  ghost predicate ReadsView<R>(s: State<R>, r: SnapRec<R>, k: Key) {
    k !in s.WritesOf(r.snap.txid) ==>
      VisibleIs(s.ChainOf(k), r.snap, s.txns.status, Lookup(r.view, k))
  }

  ghost predicate LockedOk<R>(s: State<R>, r: SnapRec<R>, k: Key) {
    k in r.locked ==>
      && k in s.owner && s.owner[k] == r.snap.txid
      && Lookup(s.db, k) == Lookup(r.view, k)
      && UpToDate(s.ChainOf(k), r.snap, s.txns.status)
  }

  ghost predicate SnapInv<R>(s: State<R>, r: SnapRec<R>) {
    && Frozen(r.snap, s.txns.status) && r.snap.takenAt <= s.txns.next
    && (forall k {:trigger ReadsView(s, r, k)} :: ReadsView(s, r, k))
    && (forall k {:trigger LockedOk(s, r, k)} :: LockedOk(s, r, k))
  }

  ghost predicate WritesOk<R>(s: State<R>, t: TxId) {
    s.Running(t) && forall k :: k in s.WritesOf(t) ==> k in s.owner && s.owner[k] == t
  }

  ghost predicate Inv<R>(s: State<R>) {
    && s.txns.Ok()
    && (forall k {:trigger KeyInv(s, k)} :: KeyInv(s, k))
    && (forall r {:trigger SnapInv(s, r)} :: r in s.snaps ==> SnapInv(s, r))
    && (forall t {:trigger WritesOk(s, t)} :: t in s.writes ==> WritesOk(s, t))
    && (forall k :: k in s.chains ==> s.chains[k] != [])
  }

  lemma StartInv<R>(rows: map<Key, R>, txns: Txns)
    requires txns.Ok()
    ensures Inv(Start(rows, txns))
  {
    var s := Start(rows, txns);
    forall k ensures KeyInv(s, k) {
      assert k in rows ==> Live(s.ChainOf(k)[0], txns.status);
    }
  }

  lemma HolderRuns<R>(s: State<R>, r: SnapRec<R>, k: Key)
    requires Inv(s) && Holds(s, r, k)
    ensures s.Running(r.snap.txid) && (s.PendingOf(k).Writer? ==> s.PendingOf(k).t == r.snap.txid)
    ensures ChainInv(s.ChainOf(k), s.txns.status, Lookup(s.db, k), s.PendingOf(k))
  {
    assert SnapInv(s, r) && KeyInv(s, k);
  }

  /** Reading under the row lock: an up-to-date snapshot gives its transaction's own
      write, or else the reference row. */
  lemma ReadHeld<R>(s: State<R>, r: SnapRec<R>, k: Key)
    requires Inv(s) && Holds(s, r, k) && UpToDate(s.ChainOf(k), r.snap, s.txns.status)
    ensures VisibleIs(s.ChainOf(k), r.snap, s.txns.status, Own(Lookup(s.db, k), s.PendingOf(k), r.snap.txid))
  {
    HolderRuns(s, r, k);
    assert SnapInv(s, r);
    ReadUpToDate(s.ChainOf(k), s.txns.status, Lookup(s.db, k), s.PendingOf(k), r.snap);
  }

  /** A snapshot taken under the lock is up to date. */
  lemma LockedIsCurrent<R>(s: State<R>, r: SnapRec<R>, k: Key)
    requires Inv(s) && PostLock(s, r, k)
    ensures Holds(s, r, k) && UpToDate(s.ChainOf(k), r.snap, s.txns.status)
  {
    assert SnapInv(s, r) && LockedOk(s, r, k);
  }

  /** A chain after a write by `t` holds no ids but the old ones and `t`. */
  ghost predicate OnlyAdds<R>(c: Chain<R>, d: Chain<R>, t: TxId) {
    forall i :: 0 <= i < |d| ==> FromOrOwn(d[i].xmin, c, t) && FromOrOwn(d[i].xmax, c, t)
  }

  ghost predicate FromOrOwn<R>(id: TxId, c: Chain<R>, t: TxId) {
    id == t || id == 0 || exists j :: 0 <= j < |c| && (c[j].xmin == id || c[j].xmax == id)
  }

  lemma OnlyAddsUpToDate<R>(c: Chain<R>, d: Chain<R>, s: Snapshot, st: StatusMap)
    requires OnlyAdds(c, d, s.txid) && UpToDate(c, s, st) && 0 !in st
    ensures UpToDate(d, s, st)
  {
    forall i | 0 <= i < |d| ensures Shows(d[i].xmin, s, st) && Shows(d[i].xmax, s, st) {
      assert FromOrOwn(d[i].xmin, c, s.txid) && FromOrOwn(d[i].xmax, c, s.txid);
    }
  }

  /** What a write has to establish for its own key. */
  ghost predicate WriteFits<R>(s: State<R>, t: TxId, k: Key, c: Chain<R>, value: Option<R>) {
    && s.Running(t) && k in s.owner && s.owner[k] == t
    && ChainInv(c, s.txns.status, Lookup(s.db, k), Writer(t, value))
    && OnlyAdds(s.ChainOf(k), c, t)
    && forall r {:trigger VisibleIs(c, r.snap, s.txns.status, Lookup(r.view, k))} ::
         r in s.snaps && r.snap.txid != t ==> VisibleIs(c, r.snap, s.txns.status, Lookup(r.view, k))
  }

  lemma WrittenElsewhere<R>(s: State<R>, t: TxId, k: Key, c: Chain<R>, value: Option<R>, k': Key)
    requires k in s.owner && s.owner[k] == t
    ensures var s' := Written(s, t, k, c, value);
      && s'.ChainOf(k') == (if k' == k then c else s.ChainOf(k'))
      && (k' != k ==> s'.PendingOf(k') == s.PendingOf(k'))
      && (k' == k ==> s'.PendingOf(k') == Writer(t, value))
      && (forall u :: k' in s'.WritesOf(u) <==> k' in s.WritesOf(u) || (u == t && k' == k))
  {
  }

  lemma WrittenSnap<R>(s: State<R>, t: TxId, k: Key, c: Chain<R>, value: Option<R>, r: SnapRec<R>)
    requires Inv(s) && WriteFits(s, t, k, c, value) && r in s.snaps
    ensures SnapInv(Written(s, t, k, c, value), r)
  {
    var s' := Written(s, t, k, c, value);
    assert SnapInv(s, r);
    forall k' ensures ReadsView(s', r, k') && LockedOk(s', r, k') {
      WrittenElsewhere(s, t, k, c, value, k');
      assert ReadsView(s, r, k') && LockedOk(s, r, k');
      if k' == k && r.snap.txid == t && k in r.locked {
        OnlyAddsUpToDate(s.ChainOf(k), c, r.snap, s.txns.status);
      }
    }
  }

  lemma WrittenInv<R>(s: State<R>, t: TxId, k: Key, c: Chain<R>, value: Option<R>)
    requires Inv(s) && WriteFits(s, t, k, c, value)
    ensures Inv(Written(s, t, k, c, value))
  {
    var s' := Written(s, t, k, c, value);
    forall k' ensures KeyInv(s', k') {
      WrittenElsewhere(s, t, k, c, value, k');
      assert KeyInv(s, k');
    }
    forall r | r in s'.snaps ensures SnapInv(s', r) {
      WrittenSnap(s, t, k, c, value, r);
    }
    forall u | u in s'.writes ensures WritesOk(s', u) {
      assert u in s.writes ==> WritesOk(s, u);
    }
  }

  /** Every other snapshot reads its view of a key that `t` holds locked. */
  lemma OthersRead<R>(s: State<R>, t: TxId, k: Key, r: SnapRec<R>)
    requires Inv(s) && k in s.owner && s.owner[k] == t && r in s.snaps && r.snap.txid != t
    ensures Frozen(r.snap, s.txns.status)
    ensures VisibleIs(s.ChainOf(k), r.snap, s.txns.status, Lookup(r.view, k))
  {
    assert SnapInv(s, r) && ReadsView(s, r, k);
    assert r.snap.txid in s.writes ==> WritesOk(s, r.snap.txid);
  }

  lemma InsertInv<R>(s: State<R>, r: SnapRec<R>, k: Key, row: R)
    requires Inv(s) && Holds(s, r, k) && InsertFits(s.ChainOf(k), s.txns.status, r.snap.txid)
    ensures Inv(Written(s, r.snap.txid, k, InsertChain(s.ChainOf(k), r.snap.txid, row), Some(row)))
  {
    var c, st, t := s.ChainOf(k), s.txns.status, r.snap.txid;
    HolderRuns(s, r, k);
    var d := InsertChain(c, t, row);
    InsertKeepsExactly(c, st, Lookup(s.db, k), s.PendingOf(k), t, row);
    forall q | q in s.snaps && q.snap.txid != t ensures VisibleIs(d, q.snap, st, Lookup(q.view, k)) {
      OthersRead(s, t, k, q);
      WriteHidden(c, st, Lookup(s.db, k), s.PendingOf(k), t, q.snap, Lookup(q.view, k), row);
    }
    forall i | 0 <= i < |d| ensures FromOrOwn(d[i].xmin, c, t) && FromOrOwn(d[i].xmax, c, t) {
      assert i < |c| ==> d[i] == c[i];
    }
    WrittenInv(s, t, k, d, Some(row));
  }

  lemma UpdateInv<R>(s: State<R>, r: SnapRec<R>, k: Key, row: R)
    requires Inv(s) && Holds(s, r, k) && s.ChainOf(k) != [] && UpdateFits(s.ChainOf(k), s.txns.status, r.snap.txid)
    ensures Inv(Written(s, r.snap.txid, k, UpdateChain(s.ChainOf(k), r.snap.txid, row), Some(row)))
  {
    var c, st, t := s.ChainOf(k), s.txns.status, r.snap.txid;
    HolderRuns(s, r, k);
    UpdateKeeps(c, st, Lookup(s.db, k), s.PendingOf(k), t, row);
    var d := UpdateChain(c, t, row);
    forall q | q in s.snaps && q.snap.txid != t ensures VisibleIs(d, q.snap, st, Lookup(q.view, k)) {
      OthersRead(s, t, k, q);
      WriteHidden(c, st, Lookup(s.db, k), s.PendingOf(k), t, q.snap, Lookup(q.view, k), row);
    }
    UpdateOnlyAdds(c, t, row);
    WrittenInv(s, t, k, d, Some(row));
  }

  lemma UpdateOnlyAdds<R>(c: Chain<R>, t: TxId, row: R)
    requires c != []
    ensures OnlyAdds(c, UpdateChain(c, t, row), t)
  {
    var d := UpdateChain(c, t, row);
    forall i | 0 <= i < |d| ensures FromOrOwn(d[i].xmin, c, t) && FromOrOwn(d[i].xmax, c, t) {
      assert i < |c| ==> d[i].xmin == c[i].xmin && (d[i].xmax == c[i].xmax || d[i].xmax == t);
    }
  }

  lemma DeleteInv<R>(s: State<R>, r: SnapRec<R>, k: Key)
    requires Inv(s) && Holds(s, r, k) && s.ChainOf(k) != [] && DeleteFits(s.ChainOf(k), s.txns.status, r.snap.txid)
    ensures Inv(Written(s, r.snap.txid, k, DeleteChain(s.ChainOf(k), r.snap.txid).0, None))
  {
    var c, st, t := s.ChainOf(k), s.txns.status, r.snap.txid;
    HolderRuns(s, r, k);
    DeleteKeeps(c, st, Lookup(s.db, k), s.PendingOf(k), t);
    var d := DeleteChain(c, t).0;
    forall q | q in s.snaps && q.snap.txid != t ensures VisibleIs(d, q.snap, st, Lookup(q.view, k)) {
      OthersRead(s, t, k, q);
      WriteHidden(c, st, Lookup(s.db, k), s.PendingOf(k), t, q.snap, Lookup(q.view, k), c[0].row);
    }
    DeleteOnlyAdds(c, t);
    WrittenInv(s, t, k, d, None);
  }

  lemma DeleteOnlyAdds<R>(c: Chain<R>, t: TxId)
    requires c != []
    ensures OnlyAdds(c, DeleteChain(c, t).0, t)
  {
    var d := DeleteChain(c, t).0;
    forall i | 0 <= i < |d| ensures FromOrOwn(d[i].xmin, c, t) && FromOrOwn(d[i].xmax, c, t) {
      var o := if |d| == |c| || i < OwnIndex(c, t).value then i else i + 1;
      assert d[i].xmin == c[o].xmin && (d[i].xmax == c[o].xmax || d[i].xmax == t);
    }
  }

  // -----------------------------------------------------------------
  // The other steps
  // -----------------------------------------------------------------

  lemma BeginInv<R>(s: State<R>)
    requires Inv(s)
    ensures Inv(Next(s, BeginTx))
  {
    var s' := Next(s, BeginTx);
    forall k ensures KeyInv(s', k) {
      assert KeyInv(s, k);
      NewIdUnused(s.ChainOf(k), s.txns, Lookup(s.db, k), s.PendingOf(k));
      assert s'.PendingOf(k) == s.PendingOf(k);
    }
    forall r | r in s'.snaps ensures SnapInv(s', r) {
      assert SnapInv(s, r);
      forall k ensures ReadsView(s', r, k) && LockedOk(s', r, k) {
        assert ReadsView(s, r, k) && LockedOk(s, r, k) && KeyInv(s, k);
        NewIdHidden(s.ChainOf(k), s.txns, r.snap, Lookup(s.db, k), s.PendingOf(k));
      }
    }
    forall t | t in s'.writes ensures WritesOk(s', t) {
      assert WritesOk(s, t);
    }
  }

  lemma NewIdUnused<R>(c: Chain<R>, m: Txns, base: Option<R>, p: Pending<R>)
    requires m.Ok() && ChainInv(c, m.status, base, p)
    ensures ChainInv(c, m.Begin().status, base, p)
  {
    forall i | 0 <= i < |c|
      ensures Live(c[i], m.Begin().status) <==> Live(c[i], m.status)
      ensures OnlyWriter(c[i], m.Begin().status, p)
    {
      assert IdsOk(c[i], m.status) && OnlyWriter(c[i], m.status, p);
    }
  }

  lemma NewIdHidden<R>(c: Chain<R>, m: Txns, s: Snapshot, base: Option<R>, p: Pending<R>)
    requires m.Ok() && ChainInv(c, m.status, base, p) && s.takenAt <= m.next
    ensures forall i :: 0 <= i < |c| ==> (s.Sees(c[i], m.Begin().status) <==> s.Sees(c[i], m.status))
    ensures UpToDate(c, s, m.status) ==> UpToDate(c, s, m.Begin().status)
  {
    forall i | 0 <= i < |c|
      ensures s.Sees(c[i], m.Begin().status) <==> s.Sees(c[i], m.status)
      ensures Shows(c[i].xmin, s, m.status) ==> Shows(c[i].xmin, s, m.Begin().status)
      ensures Shows(c[i].xmax, s, m.status) ==> Shows(c[i].xmax, s, m.Begin().status)
    {
      assert IdsOk(c[i], m.status);
    }
  }

  /** A snapshot just taken is up to date everywhere. */
  lemma TakenReads<R>(s: State<R>, t: TxId, k: Key)
    requires Inv(s) && s.Running(t)
    ensures var q := s.txns.Snap(t); var st := s.txns.status;
      && Frozen(q, st) && UpToDate(s.ChainOf(k), q, st)
      && VisibleIs(s.ChainOf(k), q, st, Own(Lookup(s.db, k), s.PendingOf(k), t))
  {
    var q, st, c := s.txns.Snap(t), s.txns.status, s.ChainOf(k);
    assert KeyInv(s, k);
    forall i | 0 <= i < |c| ensures Shows(c[i].xmin, q, st) && Shows(c[i].xmax, q, st) {
      assert IdsOk(c[i], st);
    }
    ReadUpToDate(c, st, Lookup(s.db, k), s.PendingOf(k), q);
  }

  lemma TakeInv<R>(s: State<R>, t: TxId)
    requires Inv(s) && Enabled(s, Take(t))
    ensures Inv(Next(s, Take(t)))
  {
    var s' := Next(s, Take(t));
    forall k ensures KeyInv(s', k) {
      assert KeyInv(s, k) && s'.PendingOf(k) == s.PendingOf(k);
    }
    forall r | r in s'.snaps ensures SnapInv(s', r) {
      if r in s.snaps {
        assert SnapInv(s, r);
        forall k ensures ReadsView(s', r, k) && LockedOk(s', r, k) {
          assert ReadsView(s, r, k) && LockedOk(s, r, k);
        }
      } else {
        forall k ensures ReadsView(s', r, k) && LockedOk(s', r, k) {
          TakenReads(s, t, k);
        }
      }
    }
    forall u | u in s'.writes ensures WritesOk(s', u) {
      assert WritesOk(s, u);
    }
  }

  lemma LockInv<R>(s: State<R>, t: TxId, k: Key)
    requires Inv(s) && Enabled(s, Action.Lock(t, k))
    ensures Inv(Next(s, Action.Lock(t, k)))
  {
    var s' := Next(s, Action.Lock(t, k));
    assert t in s.writes ==> WritesOk(s, t);
    forall k' ensures KeyInv(s', k') {
      assert KeyInv(s, k');
      assert s'.PendingOf(k') == s.PendingOf(k');
    }
    forall r | r in s'.snaps ensures SnapInv(s', r) {
      assert SnapInv(s, r);
      forall k' ensures ReadsView(s', r, k') && LockedOk(s', r, k') {
        assert ReadsView(s, r, k') && LockedOk(s, r, k');
      }
    }
    forall u | u in s'.writes ensures WritesOk(s', u) {
      assert WritesOk(s, u);
    }
  }

  lemma DropInv<R>(s: State<R>, q: SnapRec<R>)
    requires Inv(s) && Enabled(s, Drop(q))
    ensures Inv(Next(s, Drop(q)))
  {
    var s' := Next(s, Drop(q));
    forall k ensures KeyInv(s', k) {
      assert KeyInv(s, k) && s'.PendingOf(k) == s.PendingOf(k);
    }
    forall r | r in s'.snaps ensures SnapInv(s', r) {
      assert SnapInv(s, r);
      forall k ensures ReadsView(s', r, k) && LockedOk(s', r, k) {
        assert ReadsView(s, r, k) && LockedOk(s, r, k);
      }
    }
    forall u | u in s'.writes ensures WritesOk(s', u) {
      assert WritesOk(s, u);
    }
  }

  /** The key that nobody but `t` was writing is left to the next writer. */
  lemma FinishedKey<R>(s: State<R>, t: TxId, outcome: Status, k: Key)
    requires Inv(s) && s.Running(t) && outcome != Active
    ensures var s' := Finished(s, t, outcome);
      && s'.txns.status == s.txns.status[t := outcome] && s'.ChainOf(k) == s.ChainOf(k)
      && s'.PendingOf(k) == (if s.PendingOf(k).Writer? && s.PendingOf(k).t == t then NoWriter else s.PendingOf(k))
      && (k in s.WritesOf(t) <==> s.PendingOf(k).Writer? && s.PendingOf(k).t == t)
  {
    assert t in s.writes ==> WritesOk(s, t);
  }

  lemma FinishedRest<R>(s: State<R>, t: TxId, outcome: Status, db: map<Key, R>)
    requires Inv(s) && s.Running(t) && outcome != Active
    requires forall k :: k !in s.WritesOf(t) ==> Lookup(db, k) == Lookup(s.db, k)
    requires forall k {:trigger KeyInv(Finished(s, t, outcome).(db := db), k)} ::
               KeyInv(Finished(s, t, outcome).(db := db), k)
    ensures Inv(Finished(s, t, outcome).(db := db))
  {
    var s' := Finished(s, t, outcome).(db := db);
    forall r | r in s'.snaps ensures SnapInv(s', r) {
      FinishedSnap(s, t, outcome, db, r);
    }
    forall u | u in s'.writes ensures WritesOk(s', u) {
      assert WritesOk(s, u);
    }
  }

  lemma FinishedSnap<R>(s: State<R>, t: TxId, outcome: Status, db: map<Key, R>, r: SnapRec<R>)
    requires Inv(s) && s.Running(t) && outcome != Active && r in s.snaps && r.snap.txid != t
    requires forall k :: k !in s.WritesOf(t) ==> Lookup(db, k) == Lookup(s.db, k)
    ensures SnapInv(Finished(s, t, outcome).(db := db), r)
  {
    var s' := Finished(s, t, outcome).(db := db);
    var st := s.txns.status;
    assert SnapInv(s, r) && (t in s.writes ==> WritesOk(s, t));
    forall k ensures ReadsView(s', r, k) && LockedOk(s', r, k) {
      assert ReadsView(s, r, k) && LockedOk(s, r, k) && KeyInv(s, k);
      FinishedKey(s, t, outcome, k);
      if VisibleIs(s.ChainOf(k), r.snap, st, Lookup(r.view, k)) {
        FinishHidden(s.ChainOf(k), st, r.snap, Lookup(r.view, k), t, outcome);
      }
      if k in r.locked {
        forall i | 0 <= i < |s.ChainOf(k)|
          ensures Shows(s.ChainOf(k)[i].xmin, r.snap, s'.txns.status) &&
                  Shows(s.ChainOf(k)[i].xmax, r.snap, s'.txns.status)
        {
          assert OnlyWriter(s.ChainOf(k)[i], st, s.PendingOf(k));
          assert Shows(s.ChainOf(k)[i].xmin, r.snap, st) && Shows(s.ChainOf(k)[i].xmax, r.snap, st);
        }
      }
    }
    assert Frozen(r.snap, s'.txns.status);
  }

  lemma CommitInv<R>(s: State<R>, t: TxId)
    requires Inv(s) && Enabled(s, Commit(t))
    ensures Inv(Next(s, Commit(t)))
  {
    var db := Merge(s.db, s.WritesOf(t));
    var s' := Next(s, Commit(t));
    forall k ensures KeyInv(s', k) {
      assert KeyInv(s, k);
      FinishedKey(s, t, Committed, k);
      CommitKeeps(s.ChainOf(k), s.txns.status, Lookup(s.db, k), s.PendingOf(k), t);
    }
    FinishedRest(s, t, Committed, db);
  }

  lemma AbortInv<R>(s: State<R>, t: TxId)
    requires Inv(s) && Enabled(s, Abort(t))
    ensures Inv(Next(s, Abort(t)))
  {
    var s' := Next(s, Abort(t));
    assert s' == Finished(s, t, Aborted).(db := s.db);
    forall k ensures KeyInv(s', k) {
      assert KeyInv(s, k);
      FinishedKey(s, t, Aborted, k);
      AbortKeeps(s.ChainOf(k), s.txns.status, Lookup(s.db, k), s.PendingOf(k), t);
    }
    FinishedRest(s, t, Aborted, s.db);
  }

  lemma GcInv<R>(s: State<R>, horizon: nat, skipped: set<Key>)
    requires Inv(s) && Enabled(s, Gc(horizon, skipped))
    ensures Inv(Next(s, Gc(horizon, skipped)))
  {
    var s' := Next(s, Gc(horizon, skipped));
    var st := s.txns.status;
    forall k ensures KeyInv(s', k) {
      assert KeyInv(s, k) && s'.PendingOf(k) == s.PendingOf(k);
      GcKeepsInv(s.ChainOf(k), st, Lookup(s.db, k), s.PendingOf(k), horizon);
    }
    forall r | r in s'.snaps ensures SnapInv(s', r) {
      assert SnapInv(s, r);
      forall k ensures ReadsView(s', r, k) && LockedOk(s', r, k) {
        assert ReadsView(s, r, k) && LockedOk(s, r, k);
        if VisibleIs(s.ChainOf(k), r.snap, st, Lookup(r.view, k)) {
          GcHidden(s.ChainOf(k), st, r.snap, Lookup(r.view, k), horizon);
        }
        if UpToDate(s.ChainOf(k), r.snap, st) {
          GcUpToDate(s.ChainOf(k), st, r.snap, horizon);
        }
      }
    }
    forall u | u in s'.writes ensures WritesOk(s', u) {
      assert WritesOk(s, u);
    }
  }

  /** Locks are released only after the outcome is known, so no write is left under them. */
  lemma ReleaseInv<R>(s: State<R>, t: TxId)
    requires Inv(s) && Enabled(s, Release(t))
    ensures Inv(Next(s, Release(t)))
  {
    var s' := Next(s, Release(t));
    assert t in s.writes ==> WritesOk(s, t);
    forall k ensures KeyInv(s', k) {
      assert KeyInv(s, k) && s'.PendingOf(k) == s.PendingOf(k);
    }
    forall r | r in s'.snaps ensures SnapInv(s', r) {
      assert SnapInv(s, r);
      forall k ensures ReadsView(s', r, k) && LockedOk(s', r, k) {
        assert ReadsView(s, r, k) && LockedOk(s, r, k);
      }
    }
    forall u | u in s'.writes ensures WritesOk(s', u) {
      assert WritesOk(s, u);
    }
  }

  lemma StepInv<R>(s: State<R>, a: Action<R>)
    requires Inv(s) && Enabled(s, a)
    ensures Inv(Next(s, a))
  {
    match a
    case BeginTx => BeginInv(s);
    case Take(t) => TakeInv(s, t);
    case Drop(r) => DropInv(s, r);
    case Lock(t, k) => LockInv(s, t, k);
    case Insert(r, k, row) => InsertInv(s, r, k, row);
    case Update(r, k, row) => UpdateInv(s, r, k, row);
    case Delete(r, k) => DeleteInv(s, r, k);
    case Commit(t) => CommitInv(s, t);
    case Abort(t) => AbortInv(s, t);
    case Release(t) => ReleaseInv(s, t);
    case Gc(horizon, skipped) => GcInv(s, horizon, skipped);
  }

  // -----------------------------------------------------------------
  // Runs
  // -----------------------------------------------------------------

  /** The state after the actions, or None if one of them was not enabled. */
  ghost function Exec<R>(s: State<R>, acts: seq<Action<R>>): Option<State<R>>
    decreases |acts|
  {
    if acts == [] then Some(s)
    else
      match Exec(s, acts[..|acts| - 1])
      case Some(m) => if Enabled(m, acts[|acts| - 1]) then Some(Next(m, acts[|acts| - 1])) else None
      case None => None
  }

  ghost predicate RunOk<R>(s: State<R>, acts: seq<Action<R>>) {
    Exec(s, acts).Some?
  }

  ghost function After<R>(s: State<R>, acts: seq<Action<R>>): State<R>
    requires RunOk(s, acts)
  {
    Exec(s, acts).value
  }

  lemma {:induction false} RunInv<R>(s: State<R>, acts: seq<Action<R>>)
    requires Inv(s) && RunOk(s, acts)
    ensures Inv(After(s, acts))
    decreases |acts|
  {
    if acts != [] {
      RunInv(s, acts[..|acts| - 1]);
      StepInv(After(s, acts[..|acts| - 1]), acts[|acts| - 1]);
    }
  }

  /** What transaction `t` reads for `k` under snapshot `q`. */
  ghost function Read<R>(s: State<R>, q: Snapshot, k: Key): Option<R> {
    match Pick(s.ChainOf(k), q, s.txns.status)
    case Some(v) => Some(v.row)
    case None => None
  }

  lemma RunSplit<R>(s: State<R>, before: seq<Action<R>>, after: seq<Action<R>>)
    requires RunOk(s, before + after)
    ensures RunOk(s, before)
    decreases |after|
  {
    if after == [] {
      assert before + after == before;
    } else {
      var front := after[..|after| - 1];
      assert (before + after)[..|before + after| - 1] == before + front;
      RunSplit(s, before, front);
    }
  }

  /** MVCC reads.  Whatever happens after the snapshot is taken, its transaction
      reads, in every key it has not written itself, the rows of the transactions
      committed at that moment; and it sees no more than one version. */
  lemma SnapshotReadsItsMoment<R>(s: State<R>, before: seq<Action<R>>, t: TxId, after: seq<Action<R>>, k: Key)
    requires Inv(s) && RunOk(s, before + ([Take(t)] + after)) && RunOk(s, before)
    requires var then_ := After(s, before); var now := After(s, before + ([Take(t)] + after));
      && SnapRec(then_.txns.Snap(t), then_.db, then_.LockedBy(t)) in now.snaps
      && k !in now.WritesOf(t)
    ensures var then_ := After(s, before); var now := After(s, before + ([Take(t)] + after));
      && Read(now, then_.txns.Snap(t), k) == Lookup(then_.db, k)
      && VisibleIs(now.ChainOf(k), then_.txns.Snap(t), now.txns.status, Lookup(then_.db, k))
  {
    var then_ := After(s, before);
    var now := After(s, before + ([Take(t)] + after));
    var r := SnapRec(then_.txns.Snap(t), then_.db, then_.LockedBy(t));
    RunInv(s, before + ([Take(t)] + after));
    assert SnapInv(now, r) && ReadsView(now, r, k);
    PickVisible(now.ChainOf(k), r.snap, now.txns.status, Lookup(r.view, k));
  }

  /** Under the row lock a transaction reads its own writes, and otherwise the last
      committed row, if its snapshot knows every commit in the chain; one taken after
      the lock does (`LockedIsCurrent`), a pinned one unless the row was written since. */
  lemma PostLockRead<R>(s: State<R>, r: SnapRec<R>, k: Key)
    requires Inv(s) && Holds(s, r, k) && UpToDate(s.ChainOf(k), r.snap, s.txns.status)
    ensures Read(s, r.snap, k) ==
              if k in s.WritesOf(r.snap.txid) then s.WritesOf(r.snap.txid)[k] else Lookup(s.db, k)
  {
    HolderRuns(s, r, k);
    ReadHeld(s, r, k);
    PickVisible(s.ChainOf(k), r.snap, s.txns.status, Own(Lookup(s.db, k), s.PendingOf(k), r.snap.txid));
  }

  // -----------------------------------------------------------------
  // Writes decided on any snapshot
  // -----------------------------------------------------------------

  /** Which writes under the row lock keep the engine in order, whatever snapshot they
      were decided on: exactly those whose guard the chain passes. */
  lemma WritesExactly<R>(s: State<R>, r: SnapRec<R>, k: Key, row: R)
    requires Inv(s) && Holds(s, r, k)
    ensures var c, st, t := s.ChainOf(k), s.txns.status, r.snap.txid;
      && (Inv(Written(s, t, k, InsertChain(c, t, row), Some(row))) <==> InsertFits(c, st, t))
      && (c != [] ==> (Inv(Written(s, t, k, UpdateChain(c, t, row), Some(row))) <==> UpdateFits(c, st, t)))
      && (c != [] ==> (Inv(Written(s, t, k, DeleteChain(c, t).0, None)) <==> DeleteFits(c, st, t)))
  {
    var c, st, t, base, p := s.ChainOf(k), s.txns.status, r.snap.txid, Lookup(s.db, k), s.PendingOf(k);
    HolderRuns(s, r, k);
    WrittenNeeds(s, t, k, InsertChain(c, t, row), Some(row));
    InsertKeepsExactly(c, st, base, p, t, row);
    if InsertFits(c, st, t) { InsertInv(s, r, k, row); }
    if c != [] {
      WrittenNeeds(s, t, k, UpdateChain(c, t, row), Some(row));
      UpdateKeepsExactly(c, st, base, p, t, row);
      if UpdateFits(c, st, t) { UpdateInv(s, r, k, row); }
      WrittenNeeds(s, t, k, DeleteChain(c, t).0, None);
      DeleteKeepsExactly(c, st, base, p, t);
      if DeleteFits(c, st, t) { DeleteInv(s, r, k); }
    }
  }

  lemma WrittenNeeds<R>(s: State<R>, t: TxId, k: Key, c: Chain<R>, value: Option<R>)
    requires k in s.owner && s.owner[k] == t
    ensures Inv(Written(s, t, k, c, value)) ==> ChainInv(c, s.txns.status, Lookup(s.db, k), Writer(t, value))
  {
    var s' := Written(s, t, k, c, value);
    WrittenElsewhere(s, t, k, c, value, k);
    assert Inv(s') ==> KeyInv(s', k);
    hide ChainInv;
  }

  /** The guards against what a snapshot taken now would say: an insert fits exactly if
      that snapshot finds the key free, and an update of a row it still finds fits
      exactly if the live version is the last one. */
  lemma FreshDecides<R>(s: State<R>, r: SnapRec<R>, k: Key)
    requires Inv(s) && Holds(s, r, k)
    ensures var c, st, t := s.ChainOf(k), s.txns.status, r.snap.txid;
      && (InsertFits(c, st, t) <==> Read(s, s.txns.Snap(t), k) == None)
      && (Read(s, s.txns.Snap(t), k) != None ==> (UpdateFits(c, st, t) <==> OwnIndex(c, t).Some? || LiveIsLast(c, st)))
  {
    var c, st, t, base, p := s.ChainOf(k), s.txns.status, r.snap.txid, Lookup(s.db, k), s.PendingOf(k);
    HolderRuns(s, r, k);
    TakenReads(s, t, k);
    PickVisible(c, s.txns.Snap(t), st, Own(base, p, t));
    HolderFacts(c, st, base, p, t);
    if Own(base, p, t) != None { FoundFits(c, st, base, p, t); }
  }

  /** The snapshot's own verdict is the right one if no transaction it does not know has
      committed a write of the key. */
  lemma CurrentDecides<R>(s: State<R>, r: SnapRec<R>, k: Key)
    requires Inv(s) && Holds(s, r, k) && UpToDate(s.ChainOf(k), r.snap, s.txns.status)
    ensures var c, st, t := s.ChainOf(k), s.txns.status, r.snap.txid;
      && (InsertFits(c, st, t) <==> Read(s, r.snap, k) == None)
      && (Read(s, r.snap, k) != None ==> (UpdateFits(c, st, t) <==> OwnIndex(c, t).Some? || LiveIsLast(c, st)))
  {
    var c, st, t, base, p := s.ChainOf(k), s.txns.status, r.snap.txid, Lookup(s.db, k), s.PendingOf(k);
    HolderRuns(s, r, k);
    ReadHeld(s, r, k);
    PickVisible(c, r.snap, st, Own(base, p, t));
    HolderFacts(c, st, base, p, t);
    if Own(base, p, t) != None { FoundFits(c, st, base, p, t); }
  }

  /** A collection step changes no read of any snapshot in use. */
  lemma CollectionInvisible<R>(s: State<R>, horizon: nat, skipped: set<Key>, r: SnapRec<R>, k: Key)
    requires Inv(s) && Enabled(s, Gc(horizon, skipped)) && r in s.snaps
    ensures Pick(Next(s, Gc(horizon, skipped)).ChainOf(k), r.snap, s.txns.status)
         == Pick(s.ChainOf(k), r.snap, s.txns.status)
  {
    assert SnapInv(s, r);
    GcKeepsPick(s.ChainOf(k), r.snap, s.txns.status, horizon);
  }

  /** As long as no aborted transaction has left its id in the chain of a key, the
      update and delete that the executor decides on are the ones that happen. */
  lemma UntouchedKeysWritable<R>(s: State<R>, r: SnapRec<R>, k: Key, row: R)
    requires Inv(s) && Holds(s, r, k) && UpToDate(s.ChainOf(k), r.snap, s.txns.status) && Read(s, r.snap, k) != None
    requires forall i :: 0 <= i < |s.ChainOf(k)| ==>
               !IsAborted(s.txns.status, s.ChainOf(k)[i].xmin) && !IsAborted(s.txns.status, s.ChainOf(k)[i].xmax)
    ensures Enabled(s, Update(r, k, row)) && Enabled(s, Delete(r, k))
  {
    HolderRuns(s, r, k);
    PostLockRead(s, r, k);
    UntouchedIsWritable(s.ChainOf(k), s.txns.status, Lookup(s.db, k), s.PendingOf(k), r.snap.txid);
  }

  // -----------------------------------------------------------------
  // No lost updates under READ COMMITTED
  // -----------------------------------------------------------------

  /** `n` rounds of the update. */
  ghost function Iter<R>(f: R -> R, n: nat, v: R): R {
    if n == 0 then v else f(Iter(f, n - 1, v))
  }

  /** The step touches `k`, if at all, by writing `f` of what it reads there under a
      snapshot that is up to date with the row, as the one taken after the lock is. */
  ghost predicate Bumping<R>(s: State<R>, a: Action<R>, k: Key, f: R -> R) {
    match a
    case Insert(r, k', row) => k' != k
    case Update(r, k', row) =>
      k' == k ==>
        && UpToDate(s.ChainOf(k), r.snap, s.txns.status)
        && Read(s, r.snap, k).Some? && row == f(Read(s, r.snap, k).value)
    case Delete(r, k') => k' != k
    case _ => true
  }

  ghost predicate BumpingRun<R>(s: State<R>, acts: seq<Action<R>>, k: Key, f: R -> R)
    requires RunOk(s, acts)
    decreases |acts|
  {
    acts != [] ==>
      && BumpingRun(s, acts[..|acts| - 1], k, f)
      && Bumping(After(s, acts[..|acts| - 1]), acts[|acts| - 1], k, f)
  }

  /** How often `k` was updated by transactions that committed, and how often by
      each one that is still running. */
  datatype Tally = Tally(done: nat, open: map<TxId, nat>) {
    function Of(t: TxId): nat {
      if t in open then open[t] else 0
    }
  }

  ghost function CountStep<R>(c: Tally, a: Action<R>, k: Key): Tally {
    match a
    case Update(r, k', row) =>
      if k' == k then c.(open := c.open[r.snap.txid := c.Of(r.snap.txid) + 1]) else c
    case Commit(t) => Tally(c.done + c.Of(t), c.open - {t})
    case Abort(t) => c.(open := c.open - {t})
    case _ => c
  }

  ghost function Count<R>(acts: seq<Action<R>>, k: Key): Tally
    decreases |acts|
  {
    if acts == [] then Tally(0, map[]) else CountStep(Count(acts[..|acts| - 1], k), acts[|acts| - 1], k)
  }

  ghost predicate BumpedSoFar<R>(s: State<R>, c: Tally, k: Key, f: R -> R, v: R) {
    && k in s.db && s.db[k] == Iter(f, c.done, v)
    && (forall t :: k in s.WritesOf(t) ==> s.WritesOf(t)[k] == Some(Iter(f, c.done + c.Of(t), v)))
    && (forall t :: k !in s.WritesOf(t) ==> c.Of(t) == 0)
  }

  lemma BumpUpdate<R>(s: State<R>, r: SnapRec<R>, row: R, c: Tally, k: Key, f: R -> R, v: R)
    requires Inv(s) && Enabled(s, Update(r, k, row)) && Bumping(s, Update(r, k, row), k, f)
    requires BumpedSoFar(s, c, k, f, v)
    ensures BumpedSoFar(Next(s, Update(r, k, row)), CountStep(c, Update(r, k, row), k), k, f, v)
  {
    hide Inv;
    var t := r.snap.txid;
    UpdateView(s, r, k, row);
    BumpedRead(s, r, k, c, f, v);
    assert row == Iter(f, c.done + c.Of(t) + 1, v);
    OneWriter(s, k);
    hide Enabled, Next, Iter, State.WritesOf, Read;
  }

  lemma UpdateView<R>(s: State<R>, r: SnapRec<R>, k: Key, row: R)
    requires Inv(s) && Enabled(s, Update(r, k, row))
    ensures var s', t := Next(s, Update(r, k, row)), r.snap.txid;
      && s'.db == s.db && s'.WritesOf(t) == s.WritesOf(t)[k := Some(row)]
      && forall u :: u != t ==> s'.WritesOf(u) == s.WritesOf(u)
    ensures forall u :: u != r.snap.txid ==> k !in s.WritesOf(u)
  {
    HolderRuns(s, r, k);
    OneWriter(s, k);
    hide Inv, UpdateChain;
  }

  /** What the update reads at `k` is the row after all rounds it can know of. */
  lemma BumpedRead<R>(s: State<R>, r: SnapRec<R>, k: Key, c: Tally, f: R -> R, v: R)
    requires Inv(s) && Holds(s, r, k) && UpToDate(s.ChainOf(k), r.snap, s.txns.status) && BumpedSoFar(s, c, k, f, v)
    ensures Read(s, r.snap, k) == Some(Iter(f, c.done + c.Of(r.snap.txid), v))
  {
    PostLockRead(s, r, k);
    hide Inv, Iter, UpToDate;
  }

  lemma CommitView<R>(s: State<R>, t: TxId, k: Key)
    requires Enabled(s, Commit(t))
    ensures var s' := Next(s, Commit(t));
      && s'.WritesOf(t) == map[] && (forall u :: u != t ==> s'.WritesOf(u) == s.WritesOf(u))
      && (k !in s.WritesOf(t) ==> Lookup(s'.db, k) == Lookup(s.db, k))
      && (k in s.WritesOf(t) ==> Lookup(s'.db, k) == s.WritesOf(t)[k])
  {
  }

  lemma BumpCommit<R>(s: State<R>, t: TxId, c: Tally, k: Key, f: R -> R, v: R)
    requires Inv(s) && Enabled(s, Commit(t)) && BumpedSoFar(s, c, k, f, v)
    ensures BumpedSoFar(Next(s, Commit(t)), CountStep<R>(c, Commit(t), k), k, f, v)
  {
    hide Inv, Enabled, Next, Iter, State.WritesOf;
    OneWriter(s, k);
    CommitView(s, t, k);
  }

  lemma BumpAbort<R>(s: State<R>, t: TxId, c: Tally, k: Key, f: R -> R, v: R)
    requires BumpedSoFar(s, c, k, f, v)
    ensures BumpedSoFar(Finished(s, t, Aborted), c.(open := c.open - {t}), k, f, v)
  {
    var s' := Finished(s, t, Aborted);
    assert forall u :: u != t ==> s'.WritesOf(u) == s.WritesOf(u);
    assert s'.WritesOf(t) == map[];
  }

  /** Every other step leaves the committed row and the writes to `k` alone. */
  lemma RestKeeps<R>(s: State<R>, a: Action<R>, k: Key, u: TxId)
    requires Enabled(s, a) && !a.Commit? && !a.Abort?
    requires a.Insert? || a.Update? || a.Delete? ==> a.k != k
    ensures Next(s, a).db == s.db
    ensures k in Next(s, a).WritesOf(u) <==> k in s.WritesOf(u)
    ensures k in s.WritesOf(u) ==> Next(s, a).WritesOf(u)[k] == s.WritesOf(u)[k]
  {
  }

  lemma BumpStep<R>(s: State<R>, a: Action<R>, c: Tally, k: Key, f: R -> R, v: R)
    requires Inv(s) && Enabled(s, a) && Bumping(s, a, k, f) && BumpedSoFar(s, c, k, f, v)
    ensures BumpedSoFar(Next(s, a), CountStep(c, a, k), k, f, v)
  {
    hide Inv;
    if a.Update? && a.k == k {
      BumpUpdate(s, a.r, a.row, c, k, f, v);
    } else if a.Commit? {
      BumpCommit(s, a.t, c, k, f, v);
    } else if a.Abort? {
      BumpAbort(s, a.t, c, k, f, v);
    } else {
      forall u
        ensures k in Next(s, a).WritesOf(u) <==> k in s.WritesOf(u)
        ensures k in s.WritesOf(u) ==> Next(s, a).WritesOf(u)[k] == s.WritesOf(u)[k]
      {
        RestKeeps(s, a, k, u);
      }
    }
  }

  lemma OneWriter<R>(s: State<R>, k: Key)
    requires Inv(s)
    ensures forall t, u :: k in s.WritesOf(t) && k in s.WritesOf(u) ==> t == u
    ensures forall t :: k in s.WritesOf(t) ==> k in s.owner && s.owner[k] == t
  {
    forall t | k in s.WritesOf(t) ensures k in s.owner && s.owner[k] == t {
      assert WritesOk(s, t);
    }
  }

  /** No lost updates: however the transactions interleave, the committed row is
      the initial one with every committed update applied to it. */
  lemma {:induction false} NoLostUpdates<R>(s: State<R>, acts: seq<Action<R>>, k: Key, f: R -> R)
    requires Inv(s) && RunOk(s, acts) && s.writes == map[] && k in s.db
    requires BumpingRun(s, acts, k, f)
    ensures BumpedSoFar(After(s, acts), Count(acts, k), k, f, s.db[k])
    ensures k in After(s, acts).db && After(s, acts).db[k] == Iter(f, Count(acts, k).done, s.db[k])
    decreases |acts|
  {
    if acts != [] {
      var front := acts[..|acts| - 1];
      NoLostUpdates(s, front, k, f);
      RunInv(s, front);
      BumpStep(After(s, front), acts[|acts| - 1], Count(front, k), k, f, s.db[k]);
    }
  }

  // -----------------------------------------------------------------
  // A lost update under SERIALIZABLE
  // -----------------------------------------------------------------

  lemma RunMore<R>(s: State<R>, acts: seq<Action<R>>, a: Action<R>, next: State<R>)
    requires RunOk(s, acts) && Enabled(After(s, acts), a) && Next(After(s, acts), a) == next
    ensures RunOk(s, acts + [a]) && After(s, acts + [a]) == next
  {
    assert (acts + [a])[..|acts|] == acts;
  }

  const TEN: map<Key, int> := map[1 := 10]
  const PINNED := SnapRec(Snapshot(2, 3, {1, 2}), TEN, {})
  const LOCKED := SnapRec(Snapshot(1, 3, {1, 2}), TEN, {1})

  function Both(owner: map<Key, TxId>, snaps: set<SnapRec<int>>): State<int> {
    State(Txns(3, map[1 := Active, 2 := Active]), map[1 := [Version(10, 0, 0)]], owner, snaps, TEN, map[])
  }

  function FirstWrote(): State<int> {
    State(Txns(3, map[1 := Active, 2 := Active]), map[1 := [Version(10, 0, 1), Version(11, 1, 0)]], map[1 := 1],
          {PINNED, LOCKED}, TEN, map[1 := map[1 := Some(11)]])
  }

  function FirstDone(owner: map<Key, TxId>): State<int> {
    State(Txns(3, map[1 := Committed, 2 := Active]), map[1 := [Version(10, 0, 1), Version(11, 1, 0)]], owner,
          {PINNED}, map[1 := 11], map[])
  }

  function SecondWrote(): State<int> {
    State(Txns(3, map[1 := Committed, 2 := Active]),
          map[1 := [Version(10, 0, 1), Version(11, 1, 2), Version(11, 2, 0)]],
          map[1 := 2], {PINNED}, map[1 := 11], map[2 := map[1 := Some(11)]])
  }

  function Increments(): seq<Action<int>> {
    [BeginTx, BeginTx, Take(2), Action.Lock(1, 1), Take(1), Update(LOCKED, 1, 11), Commit(1), Release(1),
     Action.Lock(2, 1), Update(PINNED, 1, 11), Commit(2)]
  }

  lemma BothBegin()
    ensures var s := Start(TEN, Txns(1, map[])); var t := s.(txns := Txns(2, map[1 := Active]));
      && Enabled(s, BeginTx) && Next(s, BeginTx) == t && Enabled(t, BeginTx) && Next(t, BeginTx) == Both(map[], {})
  {
  }

  lemma BothLook()
    ensures var s, t := Both(map[], {}), Both(map[], {PINNED});
            var u, v := Both(map[1 := 1], {PINNED}), Both(map[1 := 1], {PINNED, LOCKED});
      && Enabled(s, Take(2)) && Next(s, Take(2)) == t
      && Enabled(t, Action.Lock(1, 1)) && Next(t, Action.Lock(1, 1)) == u
      && Enabled(u, Take(1)) && Next(u, Take(1)) == v
  {
    var s, u := Both(map[], {}), Both(map[1 := 1], {PINNED});
    assert s.txns.ActiveIds() == {1, 2} && s.LockedBy(2) == {} && u.LockedBy(1) == {1};
    assert {PINNED} + {LOCKED} == {PINNED, LOCKED} && {} + {PINNED} == {PINNED};
  }

  lemma FirstWrites()
    ensures var s := Both(map[1 := 1], {PINNED, LOCKED});
      && Read(s, LOCKED.snap, 1) == Some(10)
      && Enabled(s, Update(LOCKED, 1, 11)) && Next(s, Update(LOCKED, 1, 11)) == FirstWrote()
  {
    var s := Both(map[1 := 1], {PINNED, LOCKED});
    var c := [Version(10, 0, 0)];
    assert s.ChainOf(1) == c && c[..0] == [];
    assert Pick(c, LOCKED.snap, s.txns.status) == Some(c[0]) && OwnIndex(c, 1) == None;
    assert UpdateChain(c, 1, 11) == [Version(10, 0, 1), Version(11, 1, 0)];
  }

  lemma FirstCommits()
    ensures Enabled(FirstWrote(), Commit(1)) && Next(FirstWrote(), Commit(1)) == FirstDone(map[1 := 1])
    ensures Enabled(FirstDone(map[1 := 1]), Release(1)) && Next(FirstDone(map[1 := 1]), Release(1)) == FirstDone(map[])
    ensures Enabled(FirstDone(map[]), Action.Lock(2, 1))
    ensures Next(FirstDone(map[]), Action.Lock(2, 1)) == FirstDone(map[1 := 2])
  {
    assert Merge(TEN, map[1 := Some(11)]) == map[1 := 11];
  }

  lemma SecondWrites()
    ensures var s := FirstDone(map[1 := 2]);
      && Read(s, PINNED.snap, 1) == Some(10)
      && Enabled(s, Update(PINNED, 1, 11)) && Next(s, Update(PINNED, 1, 11)) == SecondWrote()
  {
    var s := FirstDone(map[1 := 2]);
    var c := [Version(10, 0, 1), Version(11, 1, 0)];
    var one := c[..1];
    assert s.ChainOf(1) == c && one == [c[0]] && one[..0] == [];
    assert Pick(one, PINNED.snap, s.txns.status) == Some(c[0]) && Pick(c, PINNED.snap, s.txns.status) == Some(c[0]);
    NotOwn(c, 2);
    assert UpdateChain(c, 2, 11) == [Version(10, 0, 1), Version(11, 1, 2), Version(11, 2, 0)];
  }

  lemma SecondCommits()
    ensures Enabled(SecondWrote(), Commit(2)) && Next(SecondWrote(), Commit(2)).db == map[1 := 11]
  {
    assert Merge(map[1 := 11], map[1 := Some(11)]) == map[1 := 11];
  }

  /** A SERIALIZABLE update keeps the snapshot it took before it waited for the row.  Two
      transactions add one to the row and commit, and it has grown by one. */
  lemma PinnedUpdateLosesWrite()
    ensures var s := Start(TEN, Txns(1, map[]));
      && RunOk(s, Increments()) && After(s, Increments()).db == map[1 := 11]
    ensures Read(Both(map[1 := 1], {PINNED, LOCKED}), LOCKED.snap, 1) == Some(10)
    ensures Read(FirstDone(map[1 := 2]), PINNED.snap, 1) == Some(10)
  {
    hide Enabled, Next, Both, FirstWrote, FirstDone, SecondWrote, Read, Start, Exec;
    var s, acts := Start(TEN, Txns(1, map[])), Increments();
    assert acts[..11] == acts;
    FirstIncrement();
    FirstCommits();
    RunOne(s, acts, 6, FirstDone(map[1 := 1]));
    RunOne(s, acts, 7, FirstDone(map[]));
    RunOne(s, acts, 8, FirstDone(map[1 := 2]));
    SecondWrites();
    RunOne(s, acts, 9, SecondWrote());
    SecondCommits();
    RunOne(s, acts, 10, Next(SecondWrote(), Commit(2)));
    FirstWrites();
  }

  lemma FirstIncrement()
    ensures var s, acts := Start(TEN, Txns(1, map[])), Increments()[..6];
      RunOk(s, acts) && After(s, acts) == FirstWrote()
  {
    hide Enabled, Next, Both, FirstWrote, Read, Start;
    var s, acts := Start(TEN, Txns(1, map[])), Increments();
    BothBegin();
    BothLook();
    FirstWrites();
    assert acts[..0] == [];
    RunOne(s, acts, 0, s.(txns := Txns(2, map[1 := Active])));
    RunOne(s, acts, 1, Both(map[], {}));
    RunOne(s, acts, 2, Both(map[], {PINNED}));
    RunOne(s, acts, 3, Both(map[1 := 1], {PINNED}));
    RunOne(s, acts, 4, Both(map[1 := 1], {PINNED, LOCKED}));
    RunOne(s, acts, 5, FirstWrote());
  }

  lemma RunOne<R>(s: State<R>, acts: seq<Action<R>>, n: nat, next: State<R>)
    requires n < |acts| && RunOk(s, acts[..n])
    requires Enabled(After(s, acts[..n]), acts[n]) && Next(After(s, acts[..n]), acts[n]) == next
    ensures RunOk(s, acts[..n + 1]) && After(s, acts[..n + 1]) == next
  {
    assert acts[..n + 1] == acts[..n] + [acts[n]];
    RunMore(s, acts[..n], acts[n], next);
  }
}
