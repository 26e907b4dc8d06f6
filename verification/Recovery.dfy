/** Crash recovery: `_recover` and `_apply_replay_record` of
    minidb/engine/database.py, replaying the data records of committed
    transactions, in log order, over the rows of the checkpoint.

    The reference is a database that buffers the writes of each transaction and
    merges a whole write set when it meets the commit record.  Replay never
    waits for a commit record: it filters by the set of all of them and applies
    records where they stand.  Row locks are what makes the two agree. */
module Recovery {
  import opened Basics
  import opened Versions
  import opened Chains
  import opened Wal
  import Mvcc

  // -----------------------------------------------------------------
  // Replay
  // -----------------------------------------------------------------

  type Stored<R> = map<Key, Chain<R>>

  function ChainAt<R>(m: Stored<R>, k: Key): Chain<R> {
    if k in m then m[k] else []
  }

  function Checkpointed<R>(rows: map<Key, R>): Stored<R> {
    map k | k in rows :: [Version(rows[k], 0, 0)]
  }

  /** One record; None stands for the error on a key that is not there. */
  function ReplayRec<R>(m: Stored<R>, r: Record<R>): Option<Stored<R>> {
    match r
    case InsertRec(t, k, row) => Some(m[k := InsertChain(ChainAt(m, k), t, row)])
    case UpdateRec(t, k, row) =>
      if ChainAt(m, k) == [] then None
      else Some(m[k := MarkLast(m[k], t) + [Version(row, t, 0)]])
    case DeleteRec(t, k) =>
      if ChainAt(m, k) == [] then None else Some(m[k := MarkLast(m[k], t)])
    case _ => Some(m)
  }

  function Replay<R>(m: Stored<R>, recs: seq<Record<R>>): Option<Stored<R>> {
    if recs == [] then Some(m)
    else
      match Replay(m, recs[..|recs| - 1])
      case Some(m') => ReplayRec(m', recs[|recs| - 1])
      case None => None
  }

  lemma ReplaySnoc<R>(m: Stored<R>, recs: seq<Record<R>>, r: Record<R>)
    ensures Replay(m, recs + [r]) ==
              match Replay(m, recs) case Some(m') => ReplayRec(m', r) case None => None
  {
    assert (recs + [r])[..|recs|] == recs;
  }

  // -----------------------------------------------------------------
  // The log and its meaning
  // -----------------------------------------------------------------

  /** A log as it came about.  `Crash` is no record: it marks where the engine
      went down and was started again over what the file held. */
  datatype Entry<R> = Logged(r: Record<R>) | Crash

  function Physical<R>(log: seq<Entry<R>>): seq<Record<R>> {
    if log == [] then []
    else
      var e := log[|log| - 1];
      Physical(log[..|log| - 1]) + if e.Logged? then [e.r] else []
  }

  /** Committed rows, the write sets of unfinished transactions, finished ids, and the
      keys that were in the checkpoint or that a committed transaction has written. */
  datatype LogState<R> = LogState(db: map<Key, R>, bufs: map<TxId, map<Key, Option<R>>>, done: set<TxId>,
                                  known: set<Key>)
  {
    function BufOf(t: TxId): map<Key, Option<R>> {
      if t in bufs then bufs[t] else map[]
    }

    /** What transaction `t` reads for `k`. */
    function View(t: TxId, k: Key): Option<R> {
      if k in BufOf(t) then BufOf(t)[k] else Mvcc.Lookup(db, k)
    }

    function Put(t: TxId, k: Key, v: Option<R>): LogState<R> {
      this.(bufs := bufs[t := BufOf(t)[k := v]])
    }

    function Drop(t: TxId): LogState<R> {
      this.(bufs := bufs - {t}, done := done + {t})
    }

    function Merged(t: TxId): LogState<R> {
      Drop(t).(db := Mvcc.Merge(db, BufOf(t)), known := known + BufOf(t).Keys)
    }

    /** The row lock of `k` is not with another unfinished transaction. */
    ghost predicate LockFree(t: TxId, k: Key) {
      forall u :: u in bufs && k in bufs[u] ==> u == t
    }
  }

  function RefStep<R>(s: LogState<R>, e: Entry<R>): LogState<R> {
    match e
    case Crash => s.(bufs := map[], done := s.done + s.bufs.Keys)
    case Logged(BeginRec(t)) => s
    case Logged(InsertRec(t, k, row)) => s.Put(t, k, Some(row))
    case Logged(UpdateRec(t, k, row)) => s.Put(t, k, Some(row))
    case Logged(DeleteRec(t, k)) => s.Put(t, k, None)
    case Logged(CommitRec(t)) => s.Merged(t)
    case Logged(AbortRec(t)) => s.Drop(t)
  }

  /** The meaning of a log over checkpointed rows: whole write sets, in commit order. */
  function Meaning<R>(rows: map<Key, R>, log: seq<Entry<R>>): LogState<R> {
    if log == [] then LogState(rows, map[], {}, rows.Keys)
    else RefStep(Meaning(rows, log[..|log| - 1]), log[|log| - 1])
  }

  /** The records the engine can write: under the row lock, of a transaction that is
      not finished; updates and deletes of keys that some snapshot can have shown it.
      The row may have changed since that snapshot was taken. */
  ghost predicate EntryOk<R>(s: LogState<R>, e: Entry<R>) {
    e.Logged? ==>
      && e.r.t > 0 && e.r.t !in s.done
      && (e.r.InsertRec? || e.r.UpdateRec? || e.r.DeleteRec? ==> s.LockFree(e.r.t, e.r.k))
      && (e.r.UpdateRec? || e.r.DeleteRec? ==> e.r.k in s.known || e.r.k in s.BufOf(e.r.t))
  }

  ghost predicate ValidLog<R>(rows: map<Key, R>, log: seq<Entry<R>>)
    decreases |log|
  {
    log != [] ==>
      && ValidLog(rows, log[..|log| - 1])
      && EntryOk(Meaning(rows, log[..|log| - 1]), log[|log| - 1])
  }

  lemma {:induction false} ValidPrefix<R>(rows: map<Key, R>, log: seq<Entry<R>>, n: nat)
    requires ValidLog(rows, log) && n <= |log|
    ensures ValidLog(rows, log[..n])
    ensures n < |log| ==> EntryOk(Meaning(rows, log[..n]), log[n])
    ensures n < |log| ==> Meaning(rows, log[..n + 1]) == RefStep(Meaning(rows, log[..n]), log[n])
    decreases |log|
  {
    if n == |log| {
      assert log[..n] == log;
    } else if n == |log| - 1 {
      assert log[..n + 1] == log && log[..n + 1][..n] == log[..n];
    } else {
      ValidPrefix(rows, log[..|log| - 1], n);
      assert log[..|log| - 1][..n] == log[..n] && log[..|log| - 1][..n + 1] == log[..n + 1];
    }
  }

  /** A finished transaction writes no more records. */
  lemma {:induction false} DoneStays<R>(rows: map<Key, R>, log: seq<Entry<R>>, n: nat, i: nat, t: TxId)
    requires ValidLog(rows, log) && n <= i <= |log|
    requires t in Meaning(rows, log[..n]).done
    ensures t in Meaning(rows, log[..i]).done
    ensures i < |log| && log[i].Logged? ==> log[i].r.t != t
    decreases i
  {
    if n < i {
      DoneStays(rows, log, n, i - 1, t);
      ValidPrefix(rows, log, i - 1);
    }
    ValidPrefix(rows, log, i);
  }

  lemma {:induction false} PhysicalHas<R>(log: seq<Entry<R>>, r: Record<R>)
    ensures r in Physical(log) <==> exists i :: 0 <= i < |log| && log[i] == Logged(r)
  {
    if log != [] {
      var front := log[..|log| - 1];
      PhysicalHas(front, r);
      if exists i :: 0 <= i < |log| && log[i] == Logged(r) {
        var i :| 0 <= i < |log| && log[i] == Logged(r);
        assert i < |front| ==> front[i] == Logged(r);
      }
      if r in Physical(front) {
        var i :| 0 <= i < |front| && front[i] == Logged(r);
        assert log[i] == Logged(r);
      }
    }
  }

  /** An unfinished write set belongs to a transaction that is not finished. */
  lemma {:induction false} OpenNotDone<R>(rows: map<Key, R>, log: seq<Entry<R>>)
    requires ValidLog(rows, log)
    ensures forall t :: t in Meaning(rows, log).bufs ==> t !in Meaning(rows, log).done
    decreases |log|
  {
    if log != [] {
      OpenNotDone(rows, log[..|log| - 1]);
    }
  }

  /** A commit record counts: no abort record of the transaction is in the log. */
  lemma CommitCounts<R>(rows: map<Key, R>, log: seq<Entry<R>>, n: nat, t: TxId)
    requires ValidLog(rows, log) && n < |log| && log[n] == Logged(CommitRec(t))
    ensures CommittedIn(Physical(log), t)
  {
    PhysicalHas(log, CommitRec(t));
    PhysicalHas(log, AbortRec(t));
    ValidPrefix(rows, log, n);
    forall i | 0 <= i < |log| ensures log[i] != Logged(AbortRec(t)) {
      ValidPrefix(rows, log, i);
      if i < n {
        if log[i] == Logged(AbortRec(t)) {
          DoneStays(rows, log, i + 1, n, t);
        }
      } else if i > n {
        DoneStays(rows, log, n + 1, i, t);
      }
    }
  }

  /** A write set dropped by a crash is never committed. */
  lemma CrashedNeverCommits<R>(rows: map<Key, R>, log: seq<Entry<R>>, n: nat, t: TxId)
    requires ValidLog(rows, log) && n < |log| && log[n] == Crash
    requires t in Meaning(rows, log[..n]).bufs
    ensures !CommittedIn(Physical(log), t)
  {
    PhysicalHas(log, CommitRec(t));
    ValidPrefix(rows, log, n);
    OpenNotDone(rows, log[..n]);
    forall i | 0 <= i < |log| ensures log[i] != Logged(CommitRec(t)) {
      ValidPrefix(rows, log, i);
      if i < n {
        if log[i] == Logged(CommitRec(t)) {
          DoneStays(rows, log, i + 1, n, t);
        }
      } else if i > n {
        DoneStays(rows, log, n + 1, i, t);
      }
    }
  }

  // -----------------------------------------------------------------
  // Replay rebuilds the meaning
  // -----------------------------------------------------------------

  /** The row at the end of a replayed chain. */
  function Value<R>(c: Chain<R>): Option<R> {
    if c == [] || c[|c| - 1].xmax != 0 then None else Some(c[|c| - 1].row)
  }

  /** All ids in the chain are committed ones. */
  ghost predicate Settled<R>(c: Chain<R>, committed: set<TxId>) {
    && 0 !in committed
    && (forall i :: 0 <= i < |c| ==>
          (c[i].xmin == 0 || c[i].xmin in committed) && (c[i].xmax == 0 || c[i].xmax in committed))
  }

  /** All but the last version are dead. */
  ghost predicate OneEnd<R>(c: Chain<R>) {
    forall i :: 0 <= i < |c| - 1 ==> c[i].xmax != 0
  }

  /** The row of the newest version that nobody deleted: what the chain is read as. */
  function ReadOf<R>(c: Chain<R>): Option<R> {
    if c == [] then None
    else if c[|c| - 1].xmax == 0 then Some(c[|c| - 1].row)
    else ReadOf(c[..|c| - 1])
  }

  /** The snapshot takes all of `ids` for committed, as every one after recovery does. */
  predicate Knows(s: Snapshot, st: StatusMap, ids: set<TxId>) {
    forall t :: t in ids ==> IsCommitted(st, t) && t < s.takenAt && t !in s.active
  }

  /** What a reader gets from a replayed chain. */
  lemma {:induction false} ReplayedIsRead<R>(c: Chain<R>, committed: set<TxId>, s: Snapshot, st: StatusMap)
    requires Settled(c, committed) && Knows(s, st, committed)
    ensures RowSeen(c, s, st) == ReadOf(c)
  {
    if c != [] {
      var v := c[|c| - 1];
      assert s.Sees(v, st) <==> v.xmax == 0;
      ReplayedIsRead(c[..|c| - 1], committed, s, st);
    }
  }

  lemma {:induction false} ReadMeaning<R>(c: Chain<R>)
    ensures ReadOf(c) == None <==> forall i :: 0 <= i < |c| ==> c[i].xmax != 0
  {
    if c != [] {
      ReadMeaning(c[..|c| - 1]);
      assert c == c[..|c| - 1] + [c[|c| - 1]];
    }
  }

  /** The row read is the one at the end, unless the end is deleted and an undeleted
      version lies beneath it. */
  lemma ReadIsValueExactly<R>(c: Chain<R>)
    ensures ReadOf(c) == Value(c) <==> OneEnd(c) || Value(c).Some?
    ensures !OneEnd(c) ==> ReadOf(c).Some?
  {
    ReadMeaning(c);
  }

  /** What replay has reached in the middle of the log: it is ahead of the
      reference by the write sets that are going to be committed. */
  ghost predicate AheadIs<R>(s: LogState<R>, committed: set<TxId>, k: Key, v: Option<R>) {
    && (forall t :: t in s.bufs && t in committed && k in s.bufs[t] ==> v == s.bufs[t][k])
    && ((forall t :: t in s.bufs && t in committed ==> k !in s.bufs[t]) ==> v == Mvcc.Lookup(s.db, k))
  }

  ghost predicate KeyReplayed<R>(m: Stored<R>, s: LogState<R>, committed: set<TxId>, k: Key) {
    Settled(ChainAt(m, k), committed) && AheadIs(s, committed, k, Value(ChainAt(m, k)))
  }

  ghost predicate Replayed<R>(m: Stored<R>, s: LogState<R>, committed: set<TxId>) {
    && (forall k {:trigger KeyReplayed(m, s, committed, k)} :: KeyReplayed(m, s, committed, k))
    && (forall k :: k in m ==> m[k] != [])
    && (forall k {:trigger Reached(s, committed, k)} :: k in m <==> Reached(s, committed, k))
  }

  /** A committed transaction has written the key, or it was in the checkpoint. */
  ghost predicate Reached<R>(s: LogState<R>, committed: set<TxId>, k: Key) {
    k in s.known || exists t :: t in s.bufs && t in committed && k in s.bufs[t]
  }

  /** One key is locked by one transaction at a time. */
  ghost predicate OneHolder<R>(s: LogState<R>) {
    forall t, u, k :: t in s.bufs && u in s.bufs && k in s.bufs[t] && k in s.bufs[u] ==> t == u
  }

  lemma {:induction false} LocksHold<R>(rows: map<Key, R>, log: seq<Entry<R>>)
    requires ValidLog(rows, log)
    ensures OneHolder(Meaning(rows, log))
    decreases |log|
  {
    if log != [] {
      LocksHold(rows, log[..|log| - 1]);
    }
  }

  /** A data record of a committed transaction, met where it stands. */
  lemma ReplayData<R>(m: Stored<R>, s: LogState<R>, committed: set<TxId>, r: Record<R>)
    requires Replayed(m, s, committed) && OneHolder(s) && EntryOk(s, Logged(r))
    requires r.t in committed && (r.InsertRec? || r.UpdateRec? || r.DeleteRec?)
    ensures Value(ChainAt(m, r.k)) == s.View(r.t, r.k)
    ensures ReplayRec(m, r).Some? && Replayed(ReplayRec(m, r).value, RefStep(s, Logged(r)), committed)
  {
    ReplayMeets(m, s, committed, r);
    var t, k, w := r.t, r.k, if r.DeleteRec? then None else Some(r.row);
    var m' := ReplayRec(m, r).value;
    var s' := RefStep(s, Logged(r));
    assert Settled(ChainAt(m, k), committed) by { assert KeyReplayed(m, s, committed, k); }
    ReplayPuts(m, r, committed);
    assert s' == s.Put(t, k, w) && m' == m[k := m'[k]];
    hide ReplayRec, RefStep, Settled, Value;
    forall k' ensures KeyReplayed(m', s', committed, k') {
      if k' != k {
        assert KeyReplayed(m, s, committed, k');
        assert ChainAt(m', k') == ChainAt(m, k');
        OtherKeyAhead(s, committed, t, k, w, k', Value(ChainAt(m, k')));
      } else {
        OwnKeyAhead(s, committed, t, k, w);
      }
    }
    forall k' ensures k' in m' <==> Reached(s', committed, k') {
      PutReaches(s, committed, t, k, w, k');
    }
  }

  lemma ReplayMeets<R>(m: Stored<R>, s: LogState<R>, committed: set<TxId>, r: Record<R>)
    requires Replayed(m, s, committed) && EntryOk(s, Logged(r))
    requires r.t in committed && (r.InsertRec? || r.UpdateRec? || r.DeleteRec?)
    ensures Value(ChainAt(m, r.k)) == s.View(r.t, r.k)
    ensures ReplayRec(m, r).Some?
  {
    assert KeyReplayed(m, s, committed, r.k);
    assert r.k in s.BufOf(r.t) || r.k in s.known ==> Reached(s, committed, r.k);
  }

  lemma ReplayPuts<R>(m: Stored<R>, r: Record<R>, committed: set<TxId>)
    requires r.t in committed && (r.InsertRec? || r.UpdateRec? || r.DeleteRec?)
    requires ReplayRec(m, r).Some? && Settled(ChainAt(m, r.k), committed)
    ensures r.k in ReplayRec(m, r).value
    ensures var d := ReplayRec(m, r).value[r.k];
      && ReplayRec(m, r).value == m[r.k := d]
      && d != [] && Settled(d, committed) && Value(d) == if r.DeleteRec? then None else Some(r.row)
  {
  }

  lemma PutReaches<R>(s: LogState<R>, committed: set<TxId>, t: TxId, k: Key, w: Option<R>, k': Key)
    requires t in committed
    ensures Reached(s.Put(t, k, w), committed, k') <==> k' == k || Reached(s, committed, k')
  {
    var s' := s.Put(t, k, w);
    assert k in s'.bufs[t];
    assert forall u :: u in s'.bufs && k' in s'.bufs[u] <==> (u in s.bufs && k' in s.bufs[u]) || (u == t && k' == k);
  }

  lemma OtherKeyAhead<R>(s: LogState<R>, committed: set<TxId>, t: TxId, k: Key, w: Option<R>, k': Key, v: Option<R>)
    requires AheadIs(s, committed, k', v) && k' != k
    ensures AheadIs(s.Put(t, k, w), committed, k', v)
  {
    var s' := s.Put(t, k, w);
    assert forall u :: u in s'.bufs && k' in s'.bufs[u] <==> u in s.bufs && k' in s.bufs[u];
  }

  lemma OwnKeyAhead<R>(s: LogState<R>, committed: set<TxId>, t: TxId, k: Key, w: Option<R>)
    requires s.LockFree(t, k) && t in committed
    ensures AheadIs(s.Put(t, k, w), committed, k, w)
  {
    var s' := s.Put(t, k, w);
    assert k in s'.bufs[t];
  }

  /** A record that replay skips, or one without effect on the stored rows. */
  lemma ReplaySkips<R>(m: Stored<R>, s: LogState<R>, committed: set<TxId>, e: Entry<R>)
    requires Replayed(m, s, committed) && OneHolder(s) && EntryOk(s, e)
    requires e.Logged? && (e.r.InsertRec? || e.r.UpdateRec? || e.r.DeleteRec?) ==> e.r.t !in committed
    requires e.Logged? && e.r.CommitRec? ==> e.r.t in committed
    requires e.Logged? && e.r.AbortRec? ==> e.r.t !in committed
    requires e == Crash ==> forall t :: t in s.bufs ==> t !in committed
    ensures Replayed(m, RefStep(s, e), committed)
  {
    var s' := RefStep(s, e);
    forall k ensures KeyReplayed(m, s', committed, k) && (Reached(s', committed, k) <==> Reached(s, committed, k)) {
      assert KeyReplayed(m, s, committed, k);
      if e.Logged? && e.r.CommitRec? {
        CommitAhead(s, committed, e.r.t, k, Value(ChainAt(m, k)));
      } else {
        SkipAhead(s, s', committed, k, Value(ChainAt(m, k)));
      }
    }
  }

  lemma SkipAhead<R>(s: LogState<R>, s': LogState<R>, committed: set<TxId>, k: Key, v: Option<R>)
    requires AheadIs(s, committed, k, v) && s'.db == s.db && s'.known == s.known
    requires forall u :: u in committed ==> (u in s.bufs <==> u in s'.bufs) && (u in s.bufs ==> s'.bufs[u] == s.bufs[u])
    ensures AheadIs(s', committed, k, v) && (Reached(s', committed, k) <==> Reached(s, committed, k))
  {
  }

  lemma CommitAhead<R>(s: LogState<R>, committed: set<TxId>, t: TxId, k: Key, v: Option<R>)
    requires AheadIs(s, committed, k, v) && OneHolder(s) && t in committed
    ensures AheadIs(s.Merged(t), committed, k, v)
    ensures Reached(s.Merged(t), committed, k) <==> Reached(s, committed, k)
  {
    var s' := s.Merged(t);
    if k in s.BufOf(t) {
      assert forall u :: u in s'.bufs ==> k !in s'.bufs[u];
      assert v == s.bufs[t][k] == Mvcc.Lookup(s'.db, k);
    } else {
      assert Mvcc.Lookup(s'.db, k) == Mvcc.Lookup(s.db, k);
      assert forall u :: u in s.bufs && u in committed && k in s.bufs[u] ==> u in s'.bufs && u != t;
    }
  }

  lemma {:induction false} ReplayPrefix<R>(rows: map<Key, R>, log: seq<Entry<R>>, n: nat, committed: set<TxId>)
    requires ValidLog(rows, log) && n <= |log|
    requires forall t :: t in committed <==> CommittedIn(Physical(log), t)
    ensures var m := Replay(Checkpointed(rows), Kept(Physical(log[..n]), committed));
      m.Some? && Replayed(m.value, Meaning(rows, log[..n]), committed)
  {
    if n == 0 {
      ZeroNotCommitted(rows, log);
      assert log[..0] == [];
      var start := LogState(rows, map[], {}, rows.Keys);
      forall k
        ensures KeyReplayed(Checkpointed(rows), start, committed, k) && (k in rows <==> Reached(start, committed, k))
      {
      }
    } else {
      ReplayPrefix(rows, log, n - 1, committed);
      ReplayOne(rows, log, n - 1, committed);
    }
  }

  lemma ZeroNotCommitted<R>(rows: map<Key, R>, log: seq<Entry<R>>)
    requires ValidLog(rows, log)
    ensures !CommittedIn(Physical(log), 0)
  {
    PhysicalHas(log, CommitRec(0));
    forall i | 0 <= i < |log| ensures log[i] != Logged(CommitRec(0)) {
      ValidPrefix(rows, log, i);
    }
  }

  lemma ReplayOne<R>(rows: map<Key, R>, log: seq<Entry<R>>, n: nat, committed: set<TxId>)
    requires ValidLog(rows, log) && n < |log|
    requires forall t :: t in committed <==> CommittedIn(Physical(log), t)
    requires var m := Replay(Checkpointed(rows), Kept(Physical(log[..n]), committed));
      m.Some? && Replayed(m.value, Meaning(rows, log[..n]), committed)
    ensures var m := Replay(Checkpointed(rows), Kept(Physical(log[..n + 1]), committed));
      m.Some? && Replayed(m.value, Meaning(rows, log[..n + 1]), committed)
  {
    hide Replayed, Physical, Kept, Replay, CommittedIn, Meaning, ValidLog, OneHolder;
    var m := Replay(Checkpointed(rows), Kept(Physical(log[..n]), committed)).value;
    var s, e := Meaning(rows, log[..n]), log[n];
    ValidPrefix(rows, log, n);
    LocksHold(rows, log[..n]);
    KeptStep(log, n, committed);
    if e.Logged? {
      ReplaySnoc(Checkpointed(rows), Kept(Physical(log[..n]), committed), e.r);
    }
    if e.Logged? && (e.r.InsertRec? || e.r.UpdateRec? || e.r.DeleteRec?) && e.r.t in committed {
      ReplayData(m, s, committed, e.r);
    } else {
      OutcomesFit(rows, log, n, committed);
      ReplaySkips(m, s, committed, e);
    }
  }

  /** The set of committed ids, known from the whole log, agrees with each entry on the way. */
  lemma OutcomesFit<R>(rows: map<Key, R>, log: seq<Entry<R>>, n: nat, committed: set<TxId>)
    requires ValidLog(rows, log) && n < |log|
    requires forall t :: t in committed <==> CommittedIn(Physical(log), t)
    ensures log[n].Logged? && log[n].r.CommitRec? ==> log[n].r.t in committed
    ensures log[n].Logged? && log[n].r.AbortRec? ==> log[n].r.t !in committed
    ensures log[n] == Crash ==> forall t :: t in Meaning(rows, log[..n]).bufs ==> t !in committed
  {
    var e := log[n];
    if e.Logged? && e.r.CommitRec? {
      CommitCounts(rows, log, n, e.r.t);
    } else if e.Logged? && e.r.AbortRec? {
      PhysicalHas(log, e.r);
    } else if e == Crash {
      forall t | t in Meaning(rows, log[..n]).bufs ensures t !in committed {
        CrashedNeverCommits(rows, log, n, t);
      }
    }
  }

  lemma KeptStep<R>(log: seq<Entry<R>>, n: nat, committed: set<TxId>)
    requires n < |log|
    ensures Kept(Physical(log[..n + 1]), committed)
         == if log[n].Logged? && !log[n].r.IsOutcome() && log[n].r.t in committed
            then Kept(Physical(log[..n]), committed) + [log[n].r]
            else Kept(Physical(log[..n]), committed)
  {
    assert log[..n + 1][..n] == log[..n];
    var p := Physical(log[..n]);
    if log[n].Logged? {
      assert Physical(log[..n + 1]) == p + [log[n].r];
      assert (p + [log[n].r])[..|p|] == p;
    } else {
      assert Physical(log[..n + 1]) == p;
    }
  }

  /** Replaying the data records of the committed transactions never fails, and every
      chain ends as the whole write sets of exactly those transactions, applied in
      commit order, leave the key. */
  lemma ReplayEnds<R>(rows: map<Key, R>, log: seq<Entry<R>>, committed: set<TxId>)
    requires ValidLog(rows, log)
    requires forall t :: t in committed <==> CommittedIn(Physical(log), t)
    ensures var m := Replay(Checkpointed(rows), Kept(Physical(log), committed));
      && m.Some?
      && (forall k :: k in m.value ==> m.value[k] != [])
      && forall k :: Settled(ChainAt(m.value, k), committed)
                  && Value(ChainAt(m.value, k)) == Mvcc.Lookup(Meaning(rows, log).db, k)
  {
    assert log[..|log|] == log;
    ReplayPrefix(rows, log, |log|, committed);
    var m := Replay(Checkpointed(rows), Kept(Physical(log), committed)).value;
    var s := Meaning(rows, log);
    OpenNotDone(rows, log);
    forall t | t in committed ensures t !in s.bufs {
      CommittedIsDone(rows, log, t);
    }
    forall k ensures Settled(ChainAt(m, k), committed) && Value(ChainAt(m, k)) == Mvcc.Lookup(s.db, k) {
      assert KeyReplayed(m, s, committed, k);
    }
  }

  /** No insert of key `k` by a committed transaction met a row. */
  ghost predicate CleanAt<R>(rows: map<Key, R>, log: seq<Entry<R>>, committed: set<TxId>, k: Key)
    decreases |log|
  {
    log != [] ==>
      var front, e := log[..|log| - 1], log[|log| - 1];
      && CleanAt(rows, front, committed, k)
      && (e.Logged? && e.r.InsertRec? && e.r.k == k && e.r.t in committed ==>
            Meaning(rows, front).View(e.r.t, k) == None)
  }

  ghost predicate Clean<R>(rows: map<Key, R>, log: seq<Entry<R>>, committed: set<TxId>) {
    forall k :: CleanAt(rows, log, committed, k)
  }

  lemma OneEndStep<R>(m: Stored<R>, r: Record<R>, k: Key)
    requires ReplayRec(m, r).Some? && r.t > 0
    ensures OneEnd(ChainAt(ReplayRec(m, r).value, k))
       <==> (OneEnd(ChainAt(m, k)) && (r.InsertRec? && r.k == k ==> Value(ChainAt(m, k)) == None))
  {
    var c, d := ChainAt(m, k), ChainAt(ReplayRec(m, r).value, k);
    if (r.InsertRec? || r.UpdateRec? || r.DeleteRec?) && r.k == k {
      assert forall i :: 0 <= i < |c| - 1 ==> d[i] == c[i];
      assert r.InsertRec? && c != [] ==> d[|c| - 1] == c[|c| - 1];
    }
  }

  lemma OneEndNext<R>(m: Stored<R>, s: LogState<R>, committed: set<TxId>, r: Record<R>, k: Key)
    requires Replayed(m, s, committed) && OneHolder(s) && EntryOk(s, Logged(r)) && r.t in committed && !r.IsOutcome()
    ensures ReplayRec(m, r).Some?
    ensures OneEnd(ChainAt(ReplayRec(m, r).value, k))
       <==> (OneEnd(ChainAt(m, k)) && (r.InsertRec? && r.k == k ==> s.View(r.t, k) == None))
  {
    if !r.BeginRec? { ReplayData(m, s, committed, r); }
    hide Replayed, OneHolder, OneEnd;
    OneEndStep(m, r, k);
  }

  /** Replay leaves two live rows under a key exactly if a committed insert met a row. */
  lemma {:induction false} OneEndExactly<R>(rows: map<Key, R>, log: seq<Entry<R>>, n: nat, committed: set<TxId>, k: Key)
    requires ValidLog(rows, log) && n <= |log|
    requires forall t :: t in committed <==> CommittedIn(Physical(log), t)
    ensures var m := Replay(Checkpointed(rows), Kept(Physical(log[..n]), committed));
      m.Some? && (OneEnd(ChainAt(m.value, k)) <==> CleanAt(rows, log[..n], committed, k))
    decreases n
  {
    hide *;
    ReplayPrefix(rows, log, n, committed);
    if n == 0 {
      assert log[..0] == [];
      OneEndStart(rows, committed, k);
    } else {
      OneEndExactly(rows, log, n - 1, committed, k);
      ReplayPrefix(rows, log, n - 1, committed);
      OneEndEntry(rows, log, n - 1, committed, k);
    }
  }

  lemma OneEndStart<R>(rows: map<Key, R>, committed: set<TxId>, k: Key)
    ensures var m := Replay(Checkpointed(rows), Kept(Physical<R>([]), committed));
      m.Some? && OneEnd(ChainAt(m.value, k)) && CleanAt(rows, [], committed, k)
  {
    assert Replay(Checkpointed(rows), Kept(Physical<R>([]), committed)) == Some(Checkpointed(rows));
  }

  /** The step from one entry of the log to the next. */
  lemma OneEndEntry<R>(rows: map<Key, R>, log: seq<Entry<R>>, n: nat, committed: set<TxId>, k: Key)
    requires ValidLog(rows, log) && n < |log|
    requires Replay(Checkpointed(rows), Kept(Physical(log[..n]), committed)).Some?
    requires Replay(Checkpointed(rows), Kept(Physical(log[..n + 1]), committed)).Some?
    requires var m := Replay(Checkpointed(rows), Kept(Physical(log[..n]), committed)).value;
      && Replayed(m, Meaning(rows, log[..n]), committed)
      && (OneEnd(ChainAt(m, k)) <==> CleanAt(rows, log[..n], committed, k))
    ensures OneEnd(ChainAt(Replay(Checkpointed(rows), Kept(Physical(log[..n + 1]), committed)).value, k))
       <==> CleanAt(rows, log[..n + 1], committed, k)
  {
    var kept, e := Kept(Physical(log[..n]), committed), log[n];
    CleanStep(rows, log, n, committed, k);
    KeptStep(log, n, committed);
    hide Replay, Kept, Physical, Meaning, Replayed, ReplayRec, OneEnd, OneHolder, CleanAt, Checkpointed, RefStep;
    ValidPrefix(rows, log, n);
    LocksHold(rows, log[..n]);
    hide ValidLog;
    if e.Logged? && !e.r.IsOutcome() && e.r.t in committed {
      ReplaySnoc(Checkpointed(rows), kept, e.r);
      OneEndNext(Replay(Checkpointed(rows), kept).value, Meaning(rows, log[..n]), committed, e.r, k);
    }
  }

  lemma CleanStep<R>(rows: map<Key, R>, log: seq<Entry<R>>, n: nat, committed: set<TxId>, k: Key)
    requires n < |log|
    ensures CleanAt(rows, log[..n + 1], committed, k)
       <==> (CleanAt(rows, log[..n], committed, k)
             && (log[n].Logged? && log[n].r.InsertRec? && log[n].r.k == k && log[n].r.t in committed
                 ==> Meaning(rows, log[..n]).View(log[n].r.t, k) == None))
  {
    assert log[..n + 1][..n] == log[..n];
  }

  /** Crash recovery.  Replay never fails, and whatever snapshot reads a key after it gets
      the row that the whole write sets of exactly the committed transactions, applied in
      commit order, leave there; exactly unless those leave no row and one of their
      inserts, decided on an old snapshot, had met one. */
  lemma RecoveryIsExact<R>(rows: map<Key, R>, log: seq<Entry<R>>, committed: set<TxId>)
    requires ValidLog(rows, log)
    requires forall t :: t in committed <==> CommittedIn(Physical(log), t)
    ensures Replay(Checkpointed(rows), Kept(Physical(log), committed)).Some?
    ensures var m, db := Replay(Checkpointed(rows), Kept(Physical(log), committed)).value, Meaning(rows, log).db;
      forall k, s, st :: Knows(s, st, committed) ==>
        (RowSeen(ChainAt(m, k), s, st) == Mvcc.Lookup(db, k) <==> k in db || CleanAt(rows, log, committed, k))
  {
    hide *;
    ReplayEnds(rows, log, committed);
    var m, db := Replay(Checkpointed(rows), Kept(Physical(log), committed)).value, Meaning(rows, log).db;
    forall k, s, st | Knows(s, st, committed)
      ensures RowSeen(ChainAt(m, k), s, st) == Mvcc.Lookup(db, k) <==> k in db || CleanAt(rows, log, committed, k)
    {
      KeyIsRead(rows, log, committed, k, s, st);
    }
  }

  lemma KeyIsRead<R>(rows: map<Key, R>, log: seq<Entry<R>>, committed: set<TxId>, k: Key, s: Snapshot, st: StatusMap)
    requires ValidLog(rows, log) && Knows(s, st, committed)
    requires forall t :: t in committed <==> CommittedIn(Physical(log), t)
    ensures var m, db := Replay(Checkpointed(rows), Kept(Physical(log), committed)), Meaning(rows, log).db;
      m.Some?
      && (RowSeen(ChainAt(m.value, k), s, st) == Mvcc.Lookup(db, k) <==> k in db || CleanAt(rows, log, committed, k))
  {
    hide ValidLog, Replay, Kept, Physical, Meaning, CommittedIn, CleanAt, OneEnd, Value, ReadOf, RowSeen, Knows,
         Settled, Checkpointed, ChainAt;
    ReplayEnds(rows, log, committed);
    var c := ChainAt(Replay(Checkpointed(rows), Kept(Physical(log), committed)).value, k);
    assert log[..|log|] == log;
    OneEndExactly(rows, log, |log|, committed, k);
    ReplayedIsRead(c, committed, s, st);
    ReadIsValueExactly(c);
  }

  lemma CommittedIsDone<R>(rows: map<Key, R>, log: seq<Entry<R>>, t: TxId)
    requires ValidLog(rows, log) && CommittedIn(Physical(log), t)
    ensures t in Meaning(rows, log).done
  {
    PhysicalHas(log, CommitRec(t));
    var i :| 0 <= i < |log| && log[i] == Logged(CommitRec(t));
    ValidPrefix(rows, log, i);
    DoneStays(rows, log, i + 1, |log|, t);
    assert log[..|log|] == log;
  }
}
