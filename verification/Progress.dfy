/** Nothing in the model stands in the way of a transaction that nobody else is in the way of:
    from any state the engine reaches, it begins, locks a free key, writes it, commits or
    aborts and releases, and its effect is exactly its write.  With the log the same goes
    down to the disk. */
module Progress {
  import opened Basics
  import opened Versions
  import opened Manager
  import opened Chains
  import opened Mvcc
  import opened Wal
  import opened Recovery
  import opened Durability
  import B = BPlusTree

  /** No aborted transaction has left its id in the chain of the key. */
  ghost predicate Unaborted<R>(s: State<R>, k: Key) {
    forall i :: 0 <= i < |s.ChainOf(k)| ==>
      !IsAborted(s.txns.status, s.ChainOf(k)[i].xmin) && !IsAborted(s.txns.status, s.ChainOf(k)[i].xmax)
  }

  /** A new transaction has begun and locked `k`. */
  function Holding<R(==)>(s: State<R>, k: Key): State<R> {
    s.(txns := s.txns.Begin(), owner := s.owner[k := s.txns.next])
  }

  /** The snapshot it takes then. */
  function Looked<R(==)>(s: State<R>, k: Key): SnapRec<R> {
    var h := Holding(s, k);
    SnapRec(h.txns.Snap(s.txns.next), s.db, h.LockedBy(s.txns.next))
  }

  function Ready<R(==)>(s: State<R>, k: Key): State<R> {
    Holding(s, k).(snaps := s.snaps + {Looked(s, k)})
  }

  /** What the executor does to leave `row` under the key; `None` deletes it. */
  function WriteOf<R(==)>(s: State<R>, k: Key, row: Option<R>): Action<R> {
    match row
    case None => Delete(Looked(s, k), k)
    case Some(v) => if k in s.db then Update(Looked(s, k), k, v) else Insert(Looked(s, k), k, v)
  }

  function OutcomeOf<R(==)>(t: TxId, commit: bool): Action<R> {
    if commit then Commit(t) else Abort(t)
  }

  lemma GetsReady<R>(s: State<R>, k: Key)
    requires Inv(s) && k !in s.owner
    ensures var t := s.txns.next;
      && Enabled<R>(s, BeginTx)
      && Enabled<R>(Next<R>(s, BeginTx), Lock(t, k)) && Next<R>(Next<R>(s, BeginTx), Lock(t, k)) == Holding(s, k)
      && Enabled<R>(Holding(s, k), Take(t)) && Next<R>(Holding(s, k), Take(t)) == Ready(s, k)
      && Inv(Ready(s, k)) && Holds(Ready(s, k), Looked(s, k), k) && PostLock(Ready(s, k), Looked(s, k), k)
  {
    var t := s.txns.next;
    StepInv<R>(s, BeginTx);
    StepInv<R>(Next<R>(s, BeginTx), Lock(t, k));
    StepInv<R>(Holding(s, k), Take(t));
    hide Inv;
  }

  /** The write is possible, and is all that is pending. */
  lemma WriteGoesThrough<R>(s: State<R>, k: Key, row: Option<R>)
    requires Inv(s) && k !in s.owner && Unaborted(s, k) && (row.None? ==> k in s.db)
    ensures var r, a := Ready(s, k), WriteOf(s, k, row);
      Enabled(r, a) && Next(r, a).WritesOf(s.txns.next) == map[k := row] && Next(r, a).db == s.db
  {
    var r, q := Ready(s, k), Looked(s, k);
    GetsReady(s, k);
    LockedIsCurrent(r, q, k);
    PostLockRead(r, q, k);
    CurrentDecides(r, q, k);
    NothingWritten(s);
    assert forall id :: IsAborted(r.txns.status, id) ==> IsAborted(s.txns.status, id);
    assert r.ChainOf(k) == s.ChainOf(k);
    hide Inv, UpToDate;
    if k in s.db {
      UntouchedKeysWritable(r, q, k, if row.Some? then row.value else s.db[k]);
    }
  }

  lemma NothingWritten<R>(s: State<R>)
    requires Inv(s)
    ensures s.WritesOf(s.txns.next) == map[]
  {
    forall t | t in s.writes ensures t < s.txns.next {
      assert WritesOk(s, t);
    }
  }

  lemma OldIds<R>(s: State<R>)
    requires Inv(s)
    ensures forall r :: r in s.snaps ==> r.snap.txid < s.txns.next
    ensures forall t :: t in s.writes ==> t < s.txns.next
  {
    forall r | r in s.snaps ensures r.snap.txid < s.txns.next {
      assert SnapInv(s, r);
    }
    forall t | t in s.writes ensures t < s.txns.next {
      assert WritesOk(s, t);
    }
  }

  /** The engine with the write in it. */
  ghost predicate HasWritten<R>(s: State<R>, w: State<R>, k: Key, row: Option<R>) {
    var t := s.txns.next;
    && Inv(w) && w.txns == s.txns.Begin() && w.owner == s.owner[k := t] && w.snaps == s.snaps + {Looked(s, k)}
    && w.db == s.db && w.writes == s.writes[t := map[k := row]]
  }

  lemma Wrote<R>(s: State<R>, k: Key, row: Option<R>)
    requires Inv(s) && k !in s.owner && Unaborted(s, k) && (row.None? ==> k in s.db)
    ensures Enabled(Ready(s, k), WriteOf(s, k, row))
    ensures HasWritten(s, Next(Ready(s, k), WriteOf(s, k, row)), k, row)
  {
    WriteGoesThrough(s, k, row);
    GetsReady(s, k);
    StepInv(Ready(s, k), WriteOf(s, k, row));
    OldIds(s);
    hide Inv, Enabled, Unaborted;
  }

  lemma Finishes<R>(s: State<R>, w: State<R>, k: Key, row: Option<R>, commit: bool)
    requires Inv(s) && HasWritten(s, w, k, row)
    ensures var t, e := s.txns.next, OutcomeOf<R>(s.txns.next, commit);
      && Enabled<R>(w, e) && Enabled<R>(Next<R>(w, e), Release(t))
      && Ended(s, Next<R>(Next<R>(w, e), Release(t)), k, row, commit)
  {
    var t, e := s.txns.next, OutcomeOf<R>(s.txns.next, commit);
    Outcome(s, w, k, row, commit);
    StepInv(w, e);
    var d := Next(w, e);
    hide Inv, HasWritten;
    StepInv<R>(d, Release(t));
  }

  lemma Outcome<R>(s: State<R>, w: State<R>, k: Key, row: Option<R>, commit: bool)
    requires Inv(s) && HasWritten(s, w, k, row)
    ensures var t, e := s.txns.next, OutcomeOf<R>(s.txns.next, commit);
      && Enabled<R>(w, e)
      && var d := Next<R>(w, e);
      && t in d.txns.status && !d.Running(t)
      && d.txns.status == s.txns.status[t := if commit then Committed else Aborted]
      && d.snaps == s.snaps && d.writes == s.writes && d.owner == s.owner[k := t]
      && forall j :: Lookup(d.db, j) == if commit && j == k then row else Lookup(s.db, j)
  {
    var t := s.txns.next;
    OldIds(s);
    LeavesNothing(s, k, row);
    Begun(s);
    hide Inv, Looked, Merge, Txns.Begin, Txns.Finish, Enabled, Next;
    assert w.WritesOf(t) == map[k := row];
    MergesOne(s.db, k, row);
    OutcomeIs(w, t, commit);
  }

  lemma Begun<R>(s: State<R>)
    requires Inv(s)
    ensures var b, t := s.txns.Begin(), s.txns.next;
      && IsActive(b.status, t)
      && b.Finish(t, Committed).status == s.txns.status[t := Committed]
      && b.Finish(t, Aborted).status == s.txns.status[t := Aborted]
  {
  }

  lemma OutcomeIs<R>(w: State<R>, t: TxId, commit: bool)
    requires w.Running(t)
    ensures var e := OutcomeOf<R>(t, commit);
      && Enabled<R>(w, e)
      && Next<R>(w, e) == if commit then Finished(w, t, Committed).(db := Merge(w.db, w.WritesOf(t)))
                          else Finished(w, t, Aborted)
  {
    hide Merge, Finished;
  }

  lemma MergesOne<R>(db: map<Key, R>, k: Key, row: Option<R>)
    ensures forall j :: Lookup(Merge(db, map[k := row]), j) == if j == k then row else Lookup(db, j)
  {
  }

  lemma LeavesNothing<R>(s: State<R>, k: Key, row: Option<R>)
    requires forall r :: r in s.snaps ==> r.snap.txid < s.txns.next
    requires forall t :: t in s.writes ==> t < s.txns.next
    ensures (set r | r in s.snaps + {Looked(s, k)} && r.snap.txid != s.txns.next) == s.snaps
    ensures s.writes[s.txns.next := map[k := row]] - {s.txns.next} == s.writes
  {
  }

  /** The transaction is over, and its write is all that has changed, if that. */
  ghost predicate Ended<R>(s: State<R>, d: State<R>, k: Key, row: Option<R>, commit: bool) {
    var t := s.txns.next;
    && Inv(d) && d.snaps == s.snaps && d.writes == s.writes
    && (forall j :: j in d.owner <==> j != k && j in s.owner && s.owner[j] != t)
    && d.txns.status == s.txns.status[t := if commit then Committed else Aborted]
    && forall j :: Lookup(d.db, j) == if commit && j == k then row else Lookup(s.db, j)
  }

  /** The transaction as a run, committed or aborted in the end. */
  function Transaction<R(==)>(s: State<R>, k: Key, row: Option<R>, commit: bool): seq<Action<R>> {
    var t := s.txns.next;
    [BeginTx, Lock(t, k), Take(t), WriteOf(s, k, row), OutcomeOf(t, commit), Release(t)]
  }

  /** From any state in order, on any key that is not locked and that no aborted writer has
      touched: the whole run is possible, it leaves locks and snapshots as they were, and
      of the rows it changes that one if it commits, and none if it aborts. */
  lemma TransactionGoesThrough<R>(s: State<R>, k: Key, row: Option<R>, commit: bool)
    requires Inv(s) && k !in s.owner && Unaborted(s, k) && (row.None? ==> k in s.db)
    ensures var acts := Transaction(s, k, row, commit); RunOk(s, acts) && Ended(s, After(s, acts), k, row, commit)
  {
    GetsReady(s, k);
    Wrote(s, k, row);
    hide Inv, Enabled, Next, HasWritten, Ended, Ready, Holding, Unaborted, RunOk, After;
    var t, write := s.txns.next, WriteOf(s, k, row);
    var e := OutcomeOf<R>(t, commit);
    var w := Next(Ready(s, k), write);
    Finishes(s, w, k, row, commit);
    RunSix(s, BeginTx, Lock(t, k), Take(t), write, e, Release(t));
  }

  lemma RunThree<R>(s: State<R>, acts: seq<Action<R>>, m: State<R>, a: Action<R>, b: Action<R>, c: Action<R>)
    requires RunOk(s, acts) && After(s, acts) == m
    requires Enabled(m, a) && Enabled(Next(m, a), b) && Enabled(Next(Next(m, a), b), c)
    ensures RunOk(s, acts + [a, b, c]) && After(s, acts + [a, b, c]) == Next(Next(Next(m, a), b), c)
  {
    hide Enabled, Next, RunOk, After;
    RunMore(s, acts, a, Next(m, a));
    RunMore(s, acts + [a], b, Next(Next(m, a), b));
    RunMore(s, acts + [a] + [b], c, Next(Next(Next(m, a), b), c));
    assert acts + [a] + [b] + [c] == acts + [a, b, c];
  }

  lemma NoRun<R>(s: State<R>)
    ensures RunOk<R>(s, []) && After<R>(s, []) == s
  {
  }

  lemma RunSix<R>(s: State<R>, a: Action<R>, b: Action<R>, c: Action<R>, d: Action<R>, e: Action<R>, f: Action<R>)
    requires Enabled(s, a) && Enabled(Next(s, a), b) && Enabled(Next(Next(s, a), b), c)
    requires var m := Next(Next(Next(s, a), b), c);
      Enabled(m, d) && Enabled(Next(m, d), e) && Enabled(Next(Next(m, d), e), f)
    ensures RunOk(s, [a, b, c, d, e, f])
    ensures After(s, [a, b, c, d, e, f]) == Next(Next(Next(Next(Next(Next(s, a), b), c), d), e), f)
  {
    hide *;
    NoRun(s);
    RunThree(s, [], s, a, b, c);
    assert [] + [a, b, c] == [a, b, c] && [a, b, c] + [d, e, f] == [a, b, c, d, e, f];
    RunThree(s, [a, b, c], Next(Next(Next(s, a), b), c), d, e, f);
  }

  /** The collector may run whenever its mark is above no snapshot in use and above no
      transaction that one of them found active; a snapshot can be given up. */
  lemma CollectionGoesThrough<R>(s: State<R>, mark: nat, skipped: set<Key>)
    requires forall r :: r in s.snaps ==> mark <= r.snap.takenAt && forall a :: a in r.snap.active ==> mark <= a
    ensures Enabled(s, Gc(mark, skipped))
    ensures forall r :: r in s.snaps ==> Enabled(s, Drop(r)) && Next(s, Drop(r)).snaps == s.snaps - {r}
  {
  }

  // -----------------------------------------------------------------
  // With the log
  // -----------------------------------------------------------------

  ghost predicate CanDo<R>(s: Sys<R>, a: SysAction<R>) {
    SysEnabled(s, a) && (a.CrashAt? ==> ValidLog(s.rows, s.log[..a.n]))
  }

  lemma SysMore<R>(s: Sys<R>, acts: seq<SysAction<R>>, d: Sys<R>, a: SysAction<R>)
    requires SysExec(s, acts) == Some(d) && CanDo(d, a)
    ensures SysExec(s, acts + [a]) == Some(SysNext(d, a))
  {
    assert (acts + [a])[..|acts|] == acts;
  }

  lemma {:induction false} SysRunInv<R>(s: Sys<R>, acts: seq<SysAction<R>>)
    requires SysInv(s) && SysExec(s, acts).Some?
    ensures SysInv(SysExec(s, acts).value)
    decreases |acts|
  {
    if acts != [] {
      SysRunInv(s, acts[..|acts| - 1]);
      SysStepInv(SysExec(s, acts[..|acts| - 1]).value, acts[|acts| - 1]);
    }
  }

  /** The record of the write. */
  function RecordFor<R>(t: TxId, k: Key, row: Option<R>, known: bool): Record<R> {
    match row
    case None => DeleteRec(t, k)
    case Some(v) => if known then UpdateRec(t, k, v) else InsertRec(t, k, v)
  }

  /** The engine before the acknowledgement: written in memory, logged and synced. */
  ghost function Durable<R>(s: Sys<R>, w: State<R>, k: Key, row: Option<R>): Sys<R> {
    var t := s.m.txns.next;
    var log := s.log + [Logged(BeginRec(t))] + [Logged(RecordFor(t, k, row, k in s.m.db))] + [Logged(CommitRec(t))];
    s.(m := w, log := log, durable := |log|, started := s.started + {t}, committing := s.committing + {t})
  }

  /** The transaction with its records, up to the acknowledgement. */
  function LoggedRun<R(==)>(s: Sys<R>, k: Key, row: Option<R>): seq<SysAction<R>> {
    var t := s.m.txns.next;
    [Inner(BeginTx)] + [Inner(Action.Lock(t, k))] + [Inner(Take(t))] + [LogBegin(t)]
    + [Inner(WriteOf(s.m, k, row))] + [LogCommit(t)] + [Sync(|s.log| + 3)] + [Publish(t)]
  }

  lemma NewIdUnused<R>(s: Sys<R>)
    requires SysInv(s)
    ensures s.m.txns.next !in s.started && s.m.txns.next !in s.committing
  {
    assert TxnLogged(s, s.m.txns.next);
  }

  lemma InnerGoes<R>(s: Sys<R>, a: Action<R>)
    requires Enabled(s.m, a) && !a.Commit? && !a.Abort?
    requires RecordOf(a).Some? ==> RecordOf(a).value.t in s.started && RecordOf(a).value.t !in s.committing
    ensures CanDo(s, Inner(a))
    ensures SysNext<R>(s, Inner(a))
         == (if RecordOf(a).Some? then Logging(s, RecordOf(a).value) else s).(m := Next(s.m, a))
  {
    hide Enabled, Next;
  }

  lemma WriteIsLogged<R>(m: State<R>, k: Key, row: Option<R>)
    ensures var write, t := WriteOf(m, k, row), m.txns.next;
      && RecordOf(write) == Some(RecordFor(t, k, row, k in m.db)) && RecordFor(t, k, row, k in m.db).t == t
      && !write.Commit? && !write.Abort?
  {
  }

  lemma StillRuns<R>(s: State<R>, w: State<R>, k: Key, row: Option<R>)
    requires Inv(s) && HasWritten(s, w, k, row)
    ensures w.Running(s.txns.next)
  {
    Begun(s);
  }

  lemma LogsUp<R>(s: Sys<R>, k: Key, row: Option<R>)
    requires SysInv(s) && k !in s.m.owner && Unaborted(s.m, k) && (row.None? ==> k in s.m.db)
    requires s.m.txns.next !in Meaning(s.rows, s.log).done
    ensures Enabled(Ready(s.m, k), WriteOf(s.m, k, row))
    ensures var w := Next(Ready(s.m, k), WriteOf(s.m, k, row)); var acts := LoggedRun(s, k, row);
      HasWritten(s.m, w, k, row) && SysExec(s, acts[..7]) == Some(Durable(s, w, k, row))
  {
    var t, m, write := s.m.txns.next, s.m, WriteOf(s.m, k, row);
    assert Inv(m) && s.durable <= |s.log|;
    hide SysInv, Inv, Enabled, Next, Ready, Holding, Looked, Meaning, Unaborted, HasWritten, WriteOf, RecordOf,
         RecordFor, SysEnabled, SysExec;
    NewIdUnused(s);
    Wrote(m, k, row);
    StillRuns(m, Next(Ready(m, k), write), k, row);
    WriteIsLogged(m, k, row);
    GetsStarted(s, k);
    var acts3 := [Inner(BeginTx)] + [Inner(Action.Lock(t, k))] + [Inner(Take(t))];
    ToDisk(s, acts3, s.(m := Ready(m, k)), t, write);
    var acts := LoggedRun(s, k, row);
    assert acts[..7] == acts3 + [LogBegin(t)] + [Inner(write)] + [LogCommit(t)] + [Sync(|s.log| + 3)];
  }

  /** From the begin record to the sync. */
  lemma ToDisk<R>(s: Sys<R>, acts: seq<SysAction<R>>, d: Sys<R>, t: TxId, write: Action<R>)
    requires SysExec(s, acts) == Some(d) && CanDo(d, LogBegin(t)) && d.durable <= |d.log|
    requires Enabled(d.m, write) && RecordOf(write).Some? && RecordOf(write).value.t == t
    requires !write.Commit? && !write.Abort? && t !in d.committing && Next(d.m, write).Running(t)
    ensures var log := d.log + [Logged(BeginRec(t))] + [Logged(RecordOf(write).value)] + [Logged(CommitRec(t))];
      SysExec(s, acts + [LogBegin(t)] + [Inner(write)] + [LogCommit(t)] + [Sync(|d.log| + 3)])
      == Some(d.(m := Next(d.m, write), log := log, durable := |log|, started := d.started + {t},
                 committing := d.committing + {t}))
  {
    hide Enabled, Next;
    var a4 := Logging(d, BeginRec(t)).(started := d.started + {t});
    var a5 := Logging(a4, RecordOf(write).value).(m := Next(d.m, write));
    var a6 := Logging(a5, CommitRec(t)).(committing := d.committing + {t});
    SysMore(s, acts, d, LogBegin(t));
    InnerGoes(a4, write);
    SysMore(s, acts + [LogBegin(t)], a4, Inner(write));
    SysMore(s, acts + [LogBegin(t)] + [Inner(write)], a5, LogCommit(t));
    SysMore(s, acts + [LogBegin(t)] + [Inner(write)] + [LogCommit(t)], a6, Sync(|d.log| + 3));
  }

  lemma GetsStarted<R>(s: Sys<R>, k: Key)
    requires SysInv(s) && k !in s.m.owner && s.m.txns.next !in Meaning(s.rows, s.log).done
    ensures var t := s.m.txns.next; var d := s.(m := Ready(s.m, k));
      && SysExec(s, [Inner(BeginTx)] + [Inner(Action.Lock(t, k))] + [Inner(Take(t))]) == Some(d)
      && CanDo(d, LogBegin(t))
  {
    var t, m := s.m.txns.next, s.m;
    NewIdUnused(s);
    GetsReady(m, k);
    Begun(m);
    assert Ready(m, k).Running(t);
    var d0, d1, d2 := s.(m := Next<R>(m, BeginTx)), s.(m := Holding(m, k)), s.(m := Ready(m, k));
    hide Inv, Enabled, Next, Ready, Holding, Meaning, SysInv, SysEnabled, SysNext;
    InnerGoes<R>(s, BeginTx);
    InnerGoes<R>(d0, Action.Lock(t, k));
    InnerGoes<R>(d1, Take(t));
    BeginsLog(d2, t);
    SysThree<R>(s, Inner(BeginTx), Inner(Action.Lock(t, k)), Inner(Take(t)));
  }

  lemma BeginsLog<R>(d: Sys<R>, t: TxId)
    requires d.m.Running(t) && t !in d.started && t !in Meaning(d.rows, d.log).done
    ensures CanDo(d, LogBegin(t))
  {
  }

  lemma SysThree<R>(s: Sys<R>, a: SysAction<R>, b: SysAction<R>, c: SysAction<R>)
    requires CanDo(s, a) && CanDo(SysNext(s, a), b) && CanDo(SysNext(SysNext(s, a), b), c)
    ensures SysExec(s, [a] + [b] + [c]) == Some(SysNext(SysNext(SysNext(s, a), b), c))
  {
    var none: seq<SysAction<R>> := [];
    assert SysExec(s, none) == Some(s) && none + [a] == [a];
    hide SysExec, SysNext, SysEnabled;
    SysMore(s, none, s, a);
    SysMore(s, [a], SysNext(s, a), b);
    SysMore(s, [a] + [b], SysNext(SysNext(s, a), b), c);
  }

  /** The acknowledgement. */
  lemma Acknowledged<R>(s: Sys<R>, w: State<R>, k: Key, row: Option<R>)
    requires SysInv(s) && HasWritten(s.m, w, k, row)
    ensures var t, b := s.m.txns.next, Durable(s, w, k, row);
      && CanDo(b, Publish(t))
      && var d := SysNext<R>(b, Publish(t));
      && t in d.acked && d.log == b.log && d.rows == s.rows && d.durable == |d.log| && t !in d.committing
      && d.m.PendingOf(k) == NoWriter
      && forall j :: Lookup(d.m.db, j) == if j == k then row else Lookup(s.m.db, j)
  {
    var t, b := s.m.txns.next, Durable(s, w, k, row);
    Outcome(s.m, w, k, row, true);
    OldIds(s.m);
    hide Inv, Next, HasWritten, Meaning;
    assert b.log[|b.log| - 1] == Logged(CommitRec(t));
    assert b.OnDisk() == b.log;
  }

  /** From any state in order, the run down to the acknowledgement is possible; afterwards the
      commit is acknowledged, and a crash, wherever it may strike, leaves the row. */
  lemma CommitIsDurable<R>(s: Sys<R>, k: Key, row: Option<R>, n: nat)
    requires SysInv(s) && k !in s.m.owner && Unaborted(s.m, k) && (row.None? ==> k in s.m.db)
    requires s.m.txns.next !in Meaning(s.rows, s.log).done
    ensures SysExec(s, LoggedRun(s, k, row)).Some?
    ensures var d := SysExec(s, LoggedRun(s, k, row)).value;
      && SysInv(d) && s.m.txns.next in d.acked
      && (forall j :: Lookup(d.m.db, j) == if j == k then row else Lookup(s.m.db, j))
      && (d.durable <= n <= |d.log| ==>
            CanDo(d, CrashAt(n)) && Lookup(SysNext<R>(d, CrashAt(n)).m.db, k) == row)
  {
    var t, acts := s.m.txns.next, LoggedRun(s, k, row);
    LogsUp(s, k, row);
    var w := Next(Ready(s.m, k), WriteOf(s.m, k, row));
    Acknowledged(s, w, k, row);
    hide Inv, Enabled, Next, Ready, Durable, HasWritten, Meaning, SysInv, Unaborted, SysEnabled, SysNext;
    assert acts == acts[..7] + [Publish(t)];
    SysMore(s, acts[..7], Durable(s, w, k, row), Publish(t));
    SysRunInv(s, acts);
    var d := SysExec(s, acts).value;
    if d.durable <= n <= |d.log| { RowSurvives(d, k, n); }
  }

  lemma RowSurvives<R>(d: Sys<R>, k: Key, n: nat)
    requires SysInv(d) && d.durable <= n <= |d.log| && d.durable == |d.log| && d.m.PendingOf(k) == NoWriter
    ensures CanDo(d, CrashAt(n)) && Lookup(SysNext<R>(d, CrashAt(n)).m.db, k) == Lookup(d.m.db, k)
  {
    CrashKeepsExactlyCommitted(d, n);
    assert d.log[..n] == d.log;
    assert KeyLogged(d, k);
    hide Inv, Meaning;
  }

  /** A running transaction that has not written its commit record can abort; no committed
      row changes. */
  lemma CancelGoes<R>(s: Sys<R>, t: TxId)
    requires s.m.Running(t) && t !in s.committing
    ensures CanDo(s, Cancel(t)) && SysNext<R>(s, Cancel(t)).m.db == s.m.db
    ensures t in s.started ==> SysNext<R>(s, Cancel(t)).log == s.log + [Logged(AbortRec(t))]
  {
  }

  /** An engine that has just been opened can write its checkpoint again, however its tree
      lays out the keys. */
  lemma CheckpointGoes<R>(rows: map<Key, R>, layout: seq<seq<Key>>)
    requires B.Laid(layout, rows.Keys)
    ensures CanDo(Opened(rows), Checkpoint(layout)) && SysNext<R>(Opened(rows), Checkpoint(layout)).rows == rows
  {
    var s := Opened(rows);
    OpenedInv(rows);
    forall k | k in rows ensures GcChain(s.m.chains[k], s.m.txns.status, s.m.txns.next) != [] {
      assert s.m.chains[k][..0] == [];
    }
    assert rows.Keys <= Alive(s.m.chains, s.m.txns.status, s.m.txns.next);
    assert s.m.chains.Keys == rows.Keys;
    assert !DeadNeighbours(s.m, layout);
    CheckpointKeepsRows(s, layout);
  }
}
