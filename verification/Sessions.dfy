/** Restarts over one log file.  Recovery numbers new transactions from the highest
    committed id on (minidb/engine/database.py:113-119), so an id that an earlier
    session aborted or left unfinished is given out again, and the file then holds
    the records of two transactions under one id.  A file here is any sequence of
    records, whatever sessions wrote it. */
module Sessions {
  import opened Basics
  import opened Versions
  import opened Manager
  import opened Chains
  import opened Wal
  import opened Recovery
  import opened Durability
  import Mvcc

  // -----------------------------------------------------------------
  // Replay is last writer wins
  // -----------------------------------------------------------------

  predicate Writes<R>(r: Record<R>, k: Key) {
    (r.InsertRec? || r.UpdateRec? || r.DeleteRec?) && r.k == k
  }

  function Leaves<R>(r: Record<R>): Option<R> {
    if r.InsertRec? || r.UpdateRec? then Some(r.row) else None
  }

  /** What the last record of `k` leaves there; `row` if no record is about `k`. */
  function Last<R>(recs: seq<Record<R>>, k: Key, row: Option<R>): Option<R> {
    if recs == [] then row
    else
      var r := recs[|recs| - 1];
      if Writes(r, k) then Leaves(r) else Last(recs[..|recs| - 1], k, row)
  }

  lemma {:induction false} ReplayIsLast<R>(m: Stored<R>, recs: seq<Record<R>>, k: Key)
    requires Replay(m, recs).Some? && forall r :: r in recs ==> r.t > 0
    ensures Value(ChainAt(Replay(m, recs).value, k)) == Last(recs, k, Value(ChainAt(m, k)))
  {
    if recs != [] {
      var front, r := recs[..|recs| - 1], recs[|recs| - 1];
      ReplayIsLast(m, front, k);
      assert r in recs;
      StepIsLast(Replay(m, front).value, r, k);
    }
  }

  lemma StepIsLast<R>(m: Stored<R>, r: Record<R>, k: Key)
    requires ReplayRec(m, r).Some? && r.t > 0
    ensures Value(ChainAt(ReplayRec(m, r).value, k)) == if Writes(r, k) then Leaves(r) else Value(ChainAt(m, k))
  {
  }

  lemma {:induction false} LastConcat<R>(a: seq<Record<R>>, b: seq<Record<R>>, k: Key, row: Option<R>)
    ensures Last(a + b, k, row) == Last(b, k, Last(a, k, row))
    decreases |b|
  {
    if b == [] {
      assert a + b == a;
    } else {
      assert (a + b)[..|a + b| - 1] == a + b[..|b| - 1];
      LastConcat(a, b[..|b| - 1], k, row);
    }
  }

  lemma {:induction false} ReplayConcat<R>(m: Stored<R>, a: seq<Record<R>>, b: seq<Record<R>>)
    ensures Replay(m, a + b) == match Replay(m, a) case Some(m') => Replay(m', b) case None => None
    decreases |b|
  {
    if b == [] {
      assert a + b == a;
    } else {
      assert (a + b)[..|a + b| - 1] == a + b[..|b| - 1];
      ReplayConcat(m, a, b[..|b| - 1]);
    }
  }

  lemma {:induction false} KeptConcat<R>(a: seq<Record<R>>, b: seq<Record<R>>, c: set<TxId>)
    ensures Kept(a + b, c) == Kept(a, c) + Kept(b, c)
    decreases |b|
  {
    if b == [] {
      assert a + b == a;
    } else {
      assert (a + b)[..|a + b| - 1] == a + b[..|b| - 1];
      KeptConcat(a, b[..|b| - 1], c);
    }
  }

  lemma {:induction false} PhysicalConcat<R>(a: seq<Entry<R>>, b: seq<Entry<R>>)
    ensures Physical(a + b) == Physical(a) + Physical(b)
    decreases |b|
  {
    if b == [] {
      assert a + b == a;
    } else {
      assert (a + b)[..|a + b| - 1] == a + b[..|b| - 1];
      PhysicalConcat(a, b[..|b| - 1]);
    }
  }

  lemma {:induction false} KeptFrom<R>(recs: seq<Record<R>>, c: set<TxId>)
    ensures forall r :: r in Kept(recs, c) ==> r in recs && r.t in c
  {
    if recs != [] { KeptFrom(recs[..|recs| - 1], c); }
  }

  lemma {:induction false} KeptAgree<R>(recs: seq<Record<R>>, a: set<TxId>, b: set<TxId>)
    requires forall r :: r in recs ==> (r.t in a <==> r.t in b)
    ensures Kept(recs, a) == Kept(recs, b)
  {
    if recs != [] {
      KeptAgree(recs[..|recs| - 1], a, b);
      assert recs[|recs| - 1] in recs;
    }
  }

  lemma {:induction false} IdsPositive<R>(rows: map<Key, R>, log: seq<Entry<R>>)
    requires ValidLog(rows, log)
    ensures forall r :: r in Physical(log) ==> r.t > 0
    decreases |log|
  {
    if log != [] { IdsPositive(rows, log[..|log| - 1]); }
  }

  lemma CheckpointedValue<R>(rows: map<Key, R>, k: Key)
    ensures Value(ChainAt(Checkpointed(rows), k)) == Mvcc.Lookup(rows, k)
  {
  }

  function Logs<R>(recs: seq<Record<R>>): (log: seq<Entry<R>>)
    ensures |log| == |recs| && forall i :: 0 <= i < |recs| ==> log[i] == Logged(recs[i])
    ensures Physical(log) == recs
  {
    if recs == [] then []
    else
      var front := recs[..|recs| - 1];
      var log := Logs(front) + [Logged(recs[|recs| - 1])];
      assert log[..|front|] == Logs(front) && recs == front + [recs[|recs| - 1]];
      log
  }

  lemma LogsSnoc<R>(recs: seq<Record<R>>, r: Record<R>)
    ensures Logs(recs + [r]) == Logs(recs) + [Logged(r)]
  {
    assert (recs + [r])[..|recs|] == recs;
  }

  // -----------------------------------------------------------------
  // A file and what recovery makes of it
  // -----------------------------------------------------------------

  function CommittedOf<R(==)>(recs: seq<Record<R>>): (s: set<TxId>)
    ensures forall t :: t in s <==> CommittedIn(recs, t)
  {
    CommittedSet(Logs(recs))
  }

  /** The replay of the records of some ids over the checkpoint. */
  function ReplayOf<R>(rows: map<Key, R>, recs: seq<Record<R>>, ids: set<TxId>): Option<Stored<R>> {
    Replay(Checkpointed(rows), Kept(recs, ids))
  }

  /** Recovery goes through. */
  ghost predicate Readable<R>(rows: map<Key, R>, recs: seq<Record<R>>) {
    (forall r :: r in recs ==> r.t > 0) && ReplayOf(rows, recs, CommittedOf(recs)).Some?
  }

  /** The rows that the replayed chains are read as. */
  function RowsIn<R>(m: Stored<R>): map<Key, R> {
    map k | k in m && ReadOf(m[k]).Some? :: ReadOf(m[k]).value
  }

  ghost function Shown<R>(rows: map<Key, R>, recs: seq<Record<R>>): map<Key, R>
    requires Readable(rows, recs)
  {
    RowsIn(ReplayOf(rows, recs, CommittedOf(recs)).value)
  }

  /** The first id the reopened engine gives out (`Reopened` of Durability.dfy). */
  function NextId<R(==)>(recs: seq<Record<R>>): TxId {
    MaxId(CommittedOf(recs)) + 1
  }

  lemma ShownAt<R>(m: Stored<R>, k: Key)
    ensures Mvcc.Lookup(RowsIn(m), k) == ReadOf(ChainAt(m, k))
  {
  }

  /** The books of the engine that recovery opened. */
  function Books<R(==)>(recs: seq<Record<R>>): Txns {
    Txns(1, map[]).Bootstrap(MaxId(CommittedOf(recs)))
  }

  lemma {:induction false} ReplaySettles<R>(m: Stored<R>, recs: seq<Record<R>>, ids: set<TxId>)
    requires Replay(m, recs).Some? && forall r :: r in recs ==> r.t in ids
    requires forall k :: Settled(ChainAt(m, k), ids)
    ensures forall k :: Settled(ChainAt(Replay(m, recs).value, k), ids)
  {
    if recs != [] {
      var front, r := recs[..|recs| - 1], recs[|recs| - 1];
      ReplaySettles(m, front, ids);
      assert r in recs;
      var m' := Replay(m, front).value;
      forall k ensures Settled(ChainAt(ReplayRec(m', r).value, k), ids) {
        assert Settled(ChainAt(m', k), ids);
      }
    }
  }

  /** Whatever snapshot a transaction takes after recovery, it reads the rows shown. */
  lemma ShownIsRead<R>(rows: map<Key, R>, recs: seq<Record<R>>, s: Snapshot, st: StatusMap, k: Key)
    requires Readable(rows, recs) && Later(Books(recs), s, st)
    ensures RowSeen(ChainAt(ReplayOf(rows, recs, CommittedOf(recs)).value, k), s, st)
         == Mvcc.Lookup(Shown(rows, recs), k)
  {
    var ids := CommittedOf(recs);
    assert 0 !in ids;
    KeptFrom(recs, ids);
    ReplaySettles(Checkpointed(rows), Kept(recs, ids), ids);
    LaterKnows(ids, s, st);
    var m := ReplayOf(rows, recs, ids).value;
    ReplayedIsRead(ChainAt(m, k), ids, s, st);
    ShownAt(m, k);
  }

  lemma ReplayShows<R>(rows: map<Key, R>, recs: seq<Record<R>>, ids: set<TxId>, k: Key)
    requires ReplayOf(rows, recs, ids).Some? && forall r :: r in recs ==> r.t > 0
    ensures Value(ChainAt(ReplayOf(rows, recs, ids).value, k)) == Last(Kept(recs, ids), k, Mvcc.Lookup(rows, k))
  {
    KeptFrom(recs, ids);
    ReplayIsLast(Checkpointed(rows), Kept(recs, ids), k);
    CheckpointedValue(rows, k);
  }

  // ---- more ids, more chains ----

  lemma KeptSnoc<R>(recs: seq<Record<R>>, r: Record<R>, ids: set<TxId>)
    ensures Kept(recs + [r], ids) == if !r.IsOutcome() && r.t in ids then Kept(recs, ids) + [r] else Kept(recs, ids)
  {
    assert (recs + [r])[..|recs|] == recs;
  }

  lemma ReplayOfSnoc<R>(rows: map<Key, R>, recs: seq<Record<R>>, r: Record<R>, ids: set<TxId>)
    ensures ReplayOf(rows, recs + [r], ids) ==
              if r.IsOutcome() || r.t !in ids then ReplayOf(rows, recs, ids)
              else match ReplayOf(rows, recs, ids) case Some(m) => ReplayRec(m, r) case None => None
  {
    KeptSnoc(recs, r, ids);
    ReplaySnoc(Checkpointed(rows), Kept(recs, ids), r);
  }

  ghost predicate Covers<R>(m: Stored<R>, m': Stored<R>) {
    forall k :: ChainAt(m, k) != [] ==> ChainAt(m', k) != []
  }

  lemma RecCovers<R>(m: Stored<R>, m': Stored<R>, r: Record<R>)
    requires Covers(m, m')
    ensures ReplayRec(m, r).Some? ==> ReplayRec(m', r).Some? && Covers(ReplayRec(m, r).value, ReplayRec(m', r).value)
    ensures ReplayRec(m', r).Some? ==> Covers(m, ReplayRec(m', r).value)
  {
    if ReplayRec(m', r).Some? {
      RecGrows(m', r);
    }
  }

  lemma RecGrows<R>(m: Stored<R>, r: Record<R>)
    requires ReplayRec(m, r).Some?
    ensures Covers(m, ReplayRec(m, r).value)
  {
    var m' := ReplayRec(m, r).value;
    forall k | ChainAt(m, k) != [] ensures ChainAt(m', k) != [] {
      assert Writes(r, k) || ChainAt(m', k) == ChainAt(m, k);
    }
  }

  /** Replaying the records of more ids leaves chains at least where fewer did. */
  lemma {:induction false} MoreCovers<R>(rows: map<Key, R>, recs: seq<Record<R>>, ids: set<TxId>, more: set<TxId>)
    requires ids <= more && ReplayOf(rows, recs, ids).Some? && ReplayOf(rows, recs, more).Some?
    ensures Covers(ReplayOf(rows, recs, ids).value, ReplayOf(rows, recs, more).value)
    decreases |recs|
  {
    if recs != [] {
      var front, r := recs[..|recs| - 1], recs[|recs| - 1];
      assert recs == front + [r];
      ReplayOfSnoc(rows, front, r, ids);
      ReplayOfSnoc(rows, front, r, more);
      hide ReplayOf, Covers, ReplayRec;
      MoreCovers(rows, front, ids, more);
      RecCovers(ReplayOf(rows, front, ids).value, ReplayOf(rows, front, more).value, r);
    }
  }

  /** If the records of each single id go through beside those of `c`, all of them do. */
  lemma {:induction false} UnionGoesThrough<R>(rows: map<Key, R>, recs: seq<Record<R>>, c: set<TxId>, more: set<TxId>)
    requires c <= more && forall t: TxId :: t in more ==> ReplayOf(rows, recs, c + {t}).Some?
    ensures ReplayOf(rows, recs, more).Some?
    decreases |recs|
  {
    if recs != [] {
      var front, r := recs[..|recs| - 1], recs[|recs| - 1];
      assert recs == front + [r];
      forall t: TxId | t in more ensures ReplayOf(rows, front, c + {t}).Some? {
        ReplayOfSnoc(rows, front, r, c + {t});
      }
      UnionGoesThrough(rows, front, c, more);
      ReplayOfSnoc(rows, front, r, more);
      if r.t in more {
        ReplayOfSnoc(rows, front, r, c + {r.t});
        MoreCovers(rows, front, c + {r.t}, more);
        hide ReplayOf, Covers, ReplayRec;
        if !r.IsOutcome() {
          RecCovers(ReplayOf(rows, front, c + {r.t}).value, ReplayOf(rows, front, more).value, r);
        }
      }
    }
  }

  // ---- one session over chains that hold the rows it started from ----

  /** Keys the log knows of, or that one of `ids` has written, have a chain. */
  ghost predicate Founded<R>(m: Stored<R>, s: LogState<R>, ids: set<TxId>) {
    && (forall k :: k in s.known ==> ChainAt(m, k) != [])
    && (forall u, k :: u in s.bufs && u in ids && k in s.bufs[u] ==> ChainAt(m, k) != [])
  }

  lemma {:induction false} LooseReplay<R>(m: Stored<R>, rows: map<Key, R>, log: seq<Entry<R>>, n: nat, ids: set<TxId>)
    requires ValidLog(rows, log) && n <= |log|
    requires forall k :: k in rows ==> ChainAt(m, k) != []
    requires forall t :: CommittedIn(Physical(log), t) ==> t in ids
    ensures Replay(m, Kept(Physical(log[..n]), ids)).Some?
    ensures Founded(Replay(m, Kept(Physical(log[..n]), ids)).value, Meaning(rows, log[..n]), ids)
    decreases n
  {
    if n == 0 {
      assert log[..0] == [];
    } else {
      LooseReplay(m, rows, log, n - 1, ids);
      var front, e := log[..n - 1], log[n - 1];
      var m0, s := Replay(m, Kept(Physical(front), ids)).value, Meaning(rows, front);
      ValidPrefix(rows, log, n - 1);
      KeptStep(log, n - 1, ids);
      if e.Logged? && e.r.CommitRec? { CommitCounts(rows, log, n - 1, e.r.t); }
      if e.Logged? { ReplaySnoc(m, Kept(Physical(front), ids), e.r); }
      hide ValidLog, Replay, Kept, Physical, CommittedIn, Meaning, ReplayRec;
      LooseStep(m0, s, e, ids);
    }
  }

  lemma LooseStep<R>(m: Stored<R>, s: LogState<R>, e: Entry<R>, ids: set<TxId>)
    requires Founded(m, s, ids) && EntryOk(s, e)
    requires e.Logged? && e.r.CommitRec? ==> e.r.t in ids
    ensures var s' := RefStep(s, e);
      if e.Logged? && !e.r.IsOutcome() && e.r.t in ids
      then ReplayRec(m, e.r).Some? && Founded(ReplayRec(m, e.r).value, s', ids)
      else Founded(m, s', ids)
  {
    if e.Logged? && (e.r.InsertRec? || e.r.UpdateRec? || e.r.DeleteRec?) {
      LooseWrite(m, s, e.r, ids);
    } else {
      LooseOutcome(m, s, e, ids);
      hide Founded;
    }
  }

  lemma LooseOutcome<R>(m: Stored<R>, s: LogState<R>, e: Entry<R>, ids: set<TxId>)
    requires Founded(m, s, ids)
    requires e.Logged? ==> e.r.IsOutcome() || e.r.BeginRec?
    requires e.Logged? && e.r.CommitRec? ==> e.r.t in ids
    ensures Founded(m, RefStep(s, e), ids)
  {
    var s' := RefStep(s, e);
    assert forall u :: u in s'.bufs ==> u in s.bufs && s'.bufs[u] == s.bufs[u];
  }

  lemma LooseWrite<R>(m: Stored<R>, s: LogState<R>, r: Record<R>, ids: set<TxId>)
    requires Founded(m, s, ids) && EntryOk(s, Logged(r))
    requires r.InsertRec? || r.UpdateRec? || r.DeleteRec?
    ensures var s' := RefStep(s, Logged(r));
      if r.t in ids then ReplayRec(m, r).Some? && Founded(ReplayRec(m, r).value, s', ids) else Founded(m, s', ids)
  {
    var s' := RefStep(s, Logged(r));
    assert forall u :: u in s'.bufs && u != r.t ==> u in s.bufs && s'.bufs[u] == s.bufs[u];
    if r.t in ids {
      assert r.k in s.BufOf(r.t) || r.k in s.known ==> ChainAt(m, r.k) != [];
      var m' := ReplayRec(m, r).value;
      assert forall k :: k != r.k ==> ChainAt(m', k) == ChainAt(m, k);
      assert ChainAt(m', r.k) != [];
    }
  }

  /** The committed rows of a session, as the last writes of its committed transactions. */
  lemma MeaningIsLast<R>(rows: map<Key, R>, log: seq<Entry<R>>, k: Key)
    requires ValidLog(rows, log)
    ensures Mvcc.Lookup(Meaning(rows, log).db, k)
         == Last(Kept(Physical(log), CommittedOf(Physical(log))), k, Mvcc.Lookup(rows, k))
  {
    var c := CommittedOf(Physical(log));
    ReplayEnds(rows, log, c);
    IdsPositive(rows, log);
    ReplayShows(rows, Physical(log), c, k);
  }

  /** What one session wrote can be read again; a key shows its committed row, exactly
      unless that is none and a committed insert had met a row. */
  lemma OneSession<R>(rows: map<Key, R>, log: seq<Entry<R>>)
    requires ValidLog(rows, log)
    ensures Readable(rows, Physical(log)) && NextId(Physical(log)) == Reopened(log).next
    ensures var db := Meaning(rows, log).db;
      forall k :: Mvcc.Lookup(Shown(rows, Physical(log)), k) == Mvcc.Lookup(db, k)
             <==> k in db || CleanAt(rows, log, CommittedOf(Physical(log)), k)
    ensures forall t: TxId :: ReplayOf(rows, Physical(log), CommittedOf(Physical(log)) + {t}).Some?
  {
    var c, db := CommittedOf(Physical(log)), Meaning(rows, log).db;
    ReplayEnds(rows, log, c);
    IdsPositive(rows, log);
    assert c == CommittedSet(log);
    assert log[..|log|] == log;
    var m := ReplayOf(rows, Physical(log), c).value;
    forall k ensures Mvcc.Lookup(RowsIn(m), k) == Mvcc.Lookup(db, k) <==> k in db || CleanAt(rows, log, c, k) {
      ShownAt(m, k);
      OneEndExactly(rows, log, |log|, c, k);
      ReadIsValueExactly(ChainAt(m, k));
    }
    forall t: TxId ensures ReplayOf(rows, Physical(log), c + {t}).Some? {
      LooseReplay(Checkpointed(rows), rows, log, |log|, c + {t});
    }
  }

  // ---- undeleted versions beneath a chain's end ----

  /** No chain has one. */
  ghost predicate OneEnded<R>(m: Stored<R>) {
    forall k :: OneEnd(ChainAt(m, k))
  }

  lemma OneEndedShows<R>(m: Stored<R>, k: Key)
    requires OneEnded(m)
    ensures Mvcc.Lookup(RowsIn(m), k) == Value(ChainAt(m, k))
  {
    ReadIsValueExactly(ChainAt(m, k));
    ShownAt(m, k);
  }

  /** Once an undeleted version lies beneath the end of a chain, replay never marks it. */
  lemma {:induction false} BuriedStays<R>(m: Stored<R>, recs: seq<Record<R>>, k: Key)
    requires Replay(m, recs).Some? && (forall r :: r in recs ==> r.t > 0) && !OneEnd(ChainAt(m, k))
    ensures !OneEnd(ChainAt(Replay(m, recs).value, k))
  {
    if recs != [] {
      var front, r := recs[..|recs| - 1], recs[|recs| - 1];
      BuriedStays(m, front, k);
      assert r in recs;
      OneEndStep(Replay(m, front).value, r, k);
    }
  }

  /** Replay over chains with the same ends leaves chains with the same ends. */
  lemma {:induction false} SameEnds<R>(m: Stored<R>, n: Stored<R>, recs: seq<Record<R>>, k: Key)
    requires Replay(m, recs).Some? && Replay(n, recs).Some? && forall r :: r in recs ==> r.t > 0
    requires Value(ChainAt(m, k)) == Value(ChainAt(n, k)) && OneEnd(ChainAt(m, k)) && OneEnd(ChainAt(n, k))
    ensures Value(ChainAt(Replay(m, recs).value, k)) == Value(ChainAt(Replay(n, recs).value, k))
    ensures OneEnd(ChainAt(Replay(m, recs).value, k)) <==> OneEnd(ChainAt(Replay(n, recs).value, k))
  {
    if recs != [] {
      var front, r := recs[..|recs| - 1], recs[|recs| - 1];
      SameEnds(m, n, front, k);
      assert r in recs;
      OneEndStep(Replay(m, front).value, r, k);
      OneEndStep(Replay(n, front).value, r, k);
      StepIsLast(Replay(m, front).value, r, k);
      StepIsLast(Replay(n, front).value, r, k);
    }
  }

  // -----------------------------------------------------------------
  // The next session
  // -----------------------------------------------------------------

  /** A log the next session can write: valid over the recovered rows, under ids
      that the reopened engine gives out. */
  ghost predicate NextSession<R>(rows: map<Key, R>, recs: seq<Record<R>>, next: seq<Entry<R>>) {
    && Readable(rows, recs) && ValidLog(Shown(rows, recs), next)
    && forall r :: r in Physical(next) ==> r.t >= NextId(recs)
  }

  /** None of its committed transactions inserted where there was a row. */
  ghost predicate Careful<R>(rows: map<Key, R>, recs: seq<Record<R>>, next: seq<Entry<R>>)
    requires Readable(rows, recs)
  {
    Clean(Shown(rows, recs), next, CommittedOf(Physical(next)))
  }

  /** After recovery from the whole file readers get the rows the session committed over
      those it found. */
  ghost predicate RecoveredExactly<R>(rows: map<Key, R>, recs: seq<Record<R>>, next: seq<Entry<R>>)
    requires Readable(rows, recs)
  {
    var whole := recs + Physical(next);
    Readable(rows, whole) && Shown(rows, whole) == Meaning(Shown(rows, recs), next).db
  }

  /** The file holds no abort of `t`, and replaying what `t` left in it would go through
      and change no row. */
  ghost predicate Harmless<R>(rows: map<Key, R>, recs: seq<Record<R>>, t: TxId)
    requires Readable(rows, recs)
  {
    && AbortRec(t) !in recs && ReplayOf(rows, recs, CommittedOf(recs) + {t}).Some?
    && RowsIn(ReplayOf(rows, recs, CommittedOf(recs) + {t}).value) == Shown(rows, recs)
  }

  /** Replaying what `t` and `u` left in the file would leave no undeleted version beneath
      the end of a chain. */
  ghost predicate Unburied<R>(rows: map<Key, R>, recs: seq<Record<R>>, t: TxId, u: TxId) {
    var m := ReplayOf(rows, recs, CommittedOf(recs) + {t, u});
    m.Some? ==> OneEnded(m.value)
  }

  ghost predicate HarmlessPair<R>(rows: map<Key, R>, recs: seq<Record<R>>, t: TxId, u: TxId)
    requires Readable(rows, recs)
  {
    Harmless(rows, recs, t) && Unburied(rows, recs, t, u)
  }

  /** One transaction of `ids` decides row `k`, whichever others are replayed with it. */
  lemma {:induction false} LastBy<R>(recs: seq<Record<R>>, ids: set<TxId>, k: Key, row: Option<R>,
                                     d: TxId) returns (t: TxId)
    requires d in ids
    ensures t in ids
    ensures forall some: set<TxId> :: t in some && some <= ids ==>
              Last(Kept(recs, some), k, row) == Last(Kept(recs, ids), k, row)
    decreases |recs|
  {
    t := d;
    if recs != [] {
      var front, r := recs[..|recs| - 1], recs[|recs| - 1];
      t := LastBy(front, ids, k, row, d);
      if Writes(r, k) && r.t in ids { t := r.t; }
      forall some: set<TxId> | t in some && some <= ids
        ensures Last(Kept(recs, some), k, row) == Last(Kept(recs, ids), k, row)
      {
        KeptLast(recs, some, k, row);
        KeptLast(recs, ids, k, row);
      }
    }
  }

  lemma KeptLast<R>(recs: seq<Record<R>>, c: set<TxId>, k: Key, row: Option<R>)
    requires recs != []
    ensures var front, r := recs[..|recs| - 1], recs[|recs| - 1];
      Last(Kept(recs, c), k, row) == if Writes(r, k) && r.t in c then Leaves(r) else Last(Kept(front, c), k, row)
  {
    var front, r := recs[..|recs| - 1], recs[|recs| - 1];
    if !r.IsOutcome() && r.t in c {
      assert Kept(recs, c)[..|Kept(front, c)|] == Kept(front, c);
    } else {
      assert Kept(recs, c) == Kept(front, c);
    }
  }

  /** The ids that count as committed in the whole file. */
  lemma WholeCommitted<R>(rows: map<Key, R>, recs: seq<Record<R>>, next: seq<Entry<R>>, t: TxId)
    requires NextSession(rows, recs, next)
    ensures t in CommittedOf(recs) ==> t < NextId(recs)
    ensures t in CommittedOf(recs + Physical(next)) <==>
              t in CommittedOf(recs) || (CommittedIn(Physical(next), t) && AbortRec(t) !in recs)
  {
    var b := Physical(next);
    hide ValidLog, Physical, CommittedOf, Readable, Shown;
    assert t in CommittedOf(recs) ==> t < NextId(recs);
    assert CommitRec(t) in recs + b <==> CommitRec(t) in recs || CommitRec(t) in b;
    assert AbortRec(t) in recs + b <==> AbortRec(t) in recs || AbortRec(t) in b;
  }

  lemma WholeIs<R>(rows: map<Key, R>, recs: seq<Record<R>>, next: seq<Entry<R>>, new_: set<TxId>)
    requires NextSession(rows, recs, next)
    requires forall t: TxId :: CommittedIn(Physical(next), t) <==> t in new_
    requires forall t: TxId :: t in new_ ==> AbortRec(t) !in recs
    ensures CommittedOf(recs + Physical(next)) == CommittedOf(recs) + new_
  {
    hide *;
    var whole, c := CommittedOf(recs + Physical(next)), CommittedOf(recs);
    forall t: TxId ensures t in whole <==> t in c + new_ {
      WholeCommitted(rows, recs, next, t);
    }
    assert whole == c + new_;
  }

  /** If no two ids bury a version, all together do not: a version is buried by the insert
      of one transaction over the row that one other left there. */
  lemma {:induction false} UnionUnburied<R>(rows: map<Key, R>, recs: seq<Record<R>>, c: set<TxId>, more: set<TxId>,
                                            k: Key)
    requires c <= more && ReplayOf(rows, recs, more).Some? && forall r :: r in recs ==> r.t > 0
    requires forall t: TxId, u: TxId {:trigger c + {t, u}} :: t in more && u in more ==>
               ReplayOf(rows, recs, c + {t, u}).Some? && OneEnd(ChainAt(ReplayOf(rows, recs, c + {t, u}).value, k))
    ensures OneEnd(ChainAt(ReplayOf(rows, recs, more).value, k))
    decreases |recs|
  {
    if recs != [] {
      var front, r := recs[..|recs| - 1], recs[|recs| - 1];
      assert recs == front + [r] && r in recs;
      ReplayOfSnoc(rows, front, r, more);
      forall t: TxId, u: TxId {:trigger c + {t, u}} | t in more && u in more
        ensures ReplayOf(rows, front, c + {t, u}).Some?
        ensures OneEnd(ChainAt(ReplayOf(rows, front, c + {t, u}).value, k))
      {
        UnburiedBefore(rows, front, r, c + {t, u}, k);
      }
      UnionUnburied(rows, front, c, more, k);
      if r.t in more && !r.IsOutcome() {
        OneEndStep(ReplayOf(rows, front, more).value, r, k);
        if r.InsertRec? && r.k == k {
          InsertMeetsNone(rows, front, r, c, more, k);
        }
      }
    }
  }

  lemma UnburiedBefore<R>(rows: map<Key, R>, recs: seq<Record<R>>, r: Record<R>, ids: set<TxId>, k: Key)
    requires ReplayOf(rows, recs + [r], ids).Some? && r.t > 0 && forall q :: q in recs ==> q.t > 0
    requires OneEnd(ChainAt(ReplayOf(rows, recs + [r], ids).value, k))
    ensures ReplayOf(rows, recs, ids).Some? && OneEnd(ChainAt(ReplayOf(rows, recs, ids).value, k))
    ensures r.InsertRec? && r.k == k && r.t in ids ==> Last(Kept(recs, ids), k, Mvcc.Lookup(rows, k)) == None
  {
    ReplayOfSnoc(rows, recs, r, ids);
    if r.t in ids && !r.IsOutcome() {
      OneEndStep(ReplayOf(rows, recs, ids).value, r, k);
    }
    ReplayShows(rows, recs, ids, k);
  }

  lemma InsertMeetsNone<R>(rows: map<Key, R>, recs: seq<Record<R>>, r: Record<R>, c: set<TxId>, more: set<TxId>, k: Key)
    requires c <= more && r.InsertRec? && r.k == k && r.t in more && r.t > 0 && forall q :: q in recs ==> q.t > 0
    requires forall t: TxId, u: TxId {:trigger c + {t, u}} :: t in more && u in more ==>
      ReplayOf(rows, recs + [r], c + {t, u}).Some?
      && OneEnd(ChainAt(ReplayOf(rows, recs + [r], c + {t, u}).value, k))
    requires ReplayOf(rows, recs, more).Some?
    ensures Value(ChainAt(ReplayOf(rows, recs, more).value, k)) == None
  {
    hide Kept, Last, ReplayOf, OneEnd, Value, Mvcc.Lookup;
    var t := LastBy(recs, more, k, Mvcc.Lookup(rows, k), r.t);
    assert c + {t, r.t} <= more;
    UnburiedBefore(rows, recs, r, c + {t, r.t}, k);
    ReplayShows(rows, recs, more, k);
  }

  /** Any two of `ids` that recovery has not replayed are harmless. */
  ghost predicate HarmlessBeside<R>(rows: map<Key, R>, recs: seq<Record<R>>, ids: set<TxId>)
    requires Readable(rows, recs)
  {
    var c := CommittedOf(recs);
    c <= ids && forall t: TxId, u: TxId :: t in ids && t !in c && u in ids && u !in c ==> HarmlessPair(rows, recs, t, u)
  }

  lemma PairOneEnded<R>(rows: map<Key, R>, recs: seq<Record<R>>, ids: set<TxId>, t: TxId, u: TxId)
    requires Readable(rows, recs) && HarmlessBeside(rows, recs, ids) && t in ids && u in ids
    requires OneEnded(ReplayOf(rows, recs, CommittedOf(recs)).value)
    ensures var m := ReplayOf(rows, recs, CommittedOf(recs) + {t, u}); m.Some? && OneEnded(m.value)
  {
    var c := CommittedOf(recs);
    hide ReplayOf, OneEnded, CommittedOf;
    if t in c && u in c {
      assert c + {t, u} == c;
    } else if t in c {
      assert c + {t, u} == c + {u} == c + {u, u};
      assert HarmlessPair(rows, recs, u, u);
    } else if u in c {
      assert c + {t, u} == c + {t} == c + {t, t};
      assert HarmlessPair(rows, recs, t, t);
    } else {
      assert HarmlessPair(rows, recs, t, u) && HarmlessPair(rows, recs, u, t);
      forall v: TxId | v in c + {t, u} ensures ReplayOf(rows, recs, c + {v}).Some? {
        if v in c { assert c + {v} == c; }
      }
      UnionGoesThrough(rows, recs, c, c + {t, u});
    }
  }

  lemma SingleShows<R>(rows: map<Key, R>, recs: seq<Record<R>>, ids: set<TxId>, t: TxId, k: Key)
    requires Readable(rows, recs) && HarmlessBeside(rows, recs, ids) && t in ids
    requires OneEnded(ReplayOf(rows, recs, CommittedOf(recs)).value)
    ensures Last(Kept(recs, CommittedOf(recs) + {t}), k, Mvcc.Lookup(rows, k)) == Mvcc.Lookup(Shown(rows, recs), k)
  {
    var c := CommittedOf(recs);
    hide ReplayOf, OneEnded, CommittedOf, RowsIn;
    PairOneEnded(rows, recs, ids, t, t);
    assert c + {t, t} == c + {t};
    if t in c {
      assert c + {t} == c;
    } else {
      assert HarmlessPair(rows, recs, t, t);
    }
    ReplayShows(rows, recs, c + {t}, k);
    OneEndedShows(ReplayOf(rows, recs, c + {t}).value, k);
  }

  /** Records of harmless ids, replayed together, leave the chains as readers know them. */
  lemma OldRecordsHarmless<R>(rows: map<Key, R>, recs: seq<Record<R>>, ids: set<TxId>, k: Key)
    requires Readable(rows, recs) && HarmlessBeside(rows, recs, ids)
    requires OneEnded(ReplayOf(rows, recs, CommittedOf(recs)).value)
    ensures ReplayOf(rows, recs, ids).Some? && OneEnd(ChainAt(ReplayOf(rows, recs, ids).value, k))
    ensures Value(ChainAt(ReplayOf(rows, recs, ids).value, k)) == Mvcc.Lookup(Shown(rows, recs), k)
  {
    var c := CommittedOf(recs);
    OldGoThrough(rows, recs, ids);
    hide ReplayOf, CommittedOf, OneEnd, Shown, HarmlessBeside, Value;
    ReplayShows(rows, recs, ids, k);
    if d: TxId :| d in ids {
      forall t: TxId, u: TxId {:trigger c + {t, u}} | t in ids && u in ids
        ensures ReplayOf(rows, recs, c + {t, u}).Some?
        ensures OneEnd(ChainAt(ReplayOf(rows, recs, c + {t, u}).value, k))
      {
        PairOneEnded(rows, recs, ids, t, u);
      }
      UnionUnburied(rows, recs, c, ids, k);
      var t := LastBy(recs, ids, k, Mvcc.Lookup(rows, k), d);
      assert c + {t} <= ids;
      SingleShows(rows, recs, ids, t, k);
    } else {
      assert ids == c;
      OneEndedShows(ReplayOf(rows, recs, c).value, k);
      ShownIs(rows, recs);
    }
  }

  lemma ShownIs<R>(rows: map<Key, R>, recs: seq<Record<R>>)
    requires Readable(rows, recs)
    ensures ReplayOf(rows, recs, CommittedOf(recs)).Some?
    ensures Shown(rows, recs) == RowsIn(ReplayOf(rows, recs, CommittedOf(recs)).value)
  {
  }

  lemma OldGoThrough<R>(rows: map<Key, R>, recs: seq<Record<R>>, ids: set<TxId>)
    requires Readable(rows, recs) && HarmlessBeside(rows, recs, ids)
    ensures CommittedOf(recs) <= ids && ReplayOf(rows, recs, ids).Some?
  {
    var c := CommittedOf(recs);
    forall t: TxId | t in ids ensures ReplayOf(rows, recs, c + {t}).Some? {
      if t in c {
        assert c + {t} == c;
      } else {
        assert HarmlessPair(rows, recs, t, t);
      }
    }
    UnionGoesThrough(rows, recs, c, ids);
  }

  /** The replay of the whole file, key by key, beside that of the session alone over the
      rows it found. */
  lemma WholeReplay<R>(rows: map<Key, R>, recs: seq<Record<R>>, next: seq<Entry<R>>, ids: set<TxId>, k: Key)
    requires NextSession(rows, recs, next) && HarmlessBeside(rows, recs, ids)
    requires OneEnded(ReplayOf(rows, recs, CommittedOf(recs)).value)
    requires forall t: TxId :: t in ids <==> t in CommittedOf(recs) || CommittedIn(Physical(next), t)
    ensures var m := ReplayOf(rows, recs + Physical(next), ids);
      && m.Some?
      && Value(ChainAt(m.value, k)) == Mvcc.Lookup(Meaning(Shown(rows, recs), next).db, k)
      && (OneEnd(ChainAt(m.value, k)) <==> CleanAt(Shown(rows, recs), next, CommittedOf(Physical(next)), k))
  {
    var b, db := Physical(next), Shown(rows, recs);
    assert next[..|next|] == next;
    hide ValidLog, Meaning, Kept, Physical, CommittedOf, Shown, Readable, CommittedIn, CleanAt, OneEnd, Value, Replay,
         HarmlessBeside;
    OldGoThrough(rows, recs, ids);
    var m := ReplayOf(rows, recs, ids).value;
    forall j | j in db ensures ChainAt(m, j) != [] {
      OldRecordsHarmless(rows, recs, ids, j);
      NotEmpty(ChainAt(m, j));
    }
    LooseReplay(m, db, next, |next|, ids);
    KeptConcat(recs, b, ids);
    ReplayConcat(Checkpointed(rows), Kept(recs, ids), Kept(b, ids));
    NewRecordsKept(rows, recs, next, ids);
    ReplayEnds(db, next, CommittedOf(b));
    OneEndExactly(db, next, |next|, CommittedOf(b), k);
    IdsPositive(db, next);
    KeptFrom(b, ids);
    OldRecordsHarmless(rows, recs, ids, k);
    CheckpointedValue(db, k);
    SameEnds(m, Checkpointed(db), Kept(b, ids), k);
  }

  lemma NotEmpty<R>(c: Chain<R>)
    ensures Value(c).Some? ==> c != []
  {
  }

  lemma NewRecordsKept<R>(rows: map<Key, R>, recs: seq<Record<R>>, next: seq<Entry<R>>, ids: set<TxId>)
    requires NextSession(rows, recs, next)
    requires forall t: TxId :: t in ids <==> t in CommittedOf(recs) || CommittedIn(Physical(next), t)
    ensures Kept(Physical(next), ids) == Kept(Physical(next), CommittedOf(Physical(next)))
  {
    forall r | r in Physical(next) ensures r.t in ids <==> r.t in CommittedOf(Physical(next)) {
      WholeCommitted(rows, recs, next, r.t);
    }
    KeptAgree(Physical(next), ids, CommittedOf(Physical(next)));
  }

  /** The ids a session commits under are harmless, any two of them. */
  ghost predicate CommitsHarmless<R>(rows: map<Key, R>, recs: seq<Record<R>>, next: seq<Entry<R>>)
    requires Readable(rows, recs)
  {
    forall t: TxId, u: TxId :: CommittedIn(Physical(next), t) && CommittedIn(Physical(next), u) ==>
      HarmlessPair(rows, recs, t, u)
  }

  /** What recovery makes of a session under harmless ids: a key shows the row the session
      committed, exactly unless that is none and a committed insert had met a row.  A
      session without such an insert is recovered exactly and leaves a file in order. */
  lemma NextRecoveredExactly<R>(rows: map<Key, R>, recs: seq<Record<R>>, next: seq<Entry<R>>)
    requires NextSession(rows, recs, next) && CommitsHarmless(rows, recs, next)
    requires OneEnded(ReplayOf(rows, recs, CommittedOf(recs)).value)
    ensures var whole, db := recs + Physical(next), Meaning(Shown(rows, recs), next).db;
      && Readable(rows, whole)
      && (forall k :: Mvcc.Lookup(Shown(rows, whole), k) == Mvcc.Lookup(db, k)
                 <==> k in db || CleanAt(Shown(rows, recs), next, CommittedOf(Physical(next)), k))
      && (OneEnded(ReplayOf(rows, whole, CommittedOf(whole)).value) <==> Careful(rows, recs, next))
    ensures Careful(rows, recs, next) ==> RecoveredExactly(rows, recs, next)
  {
    var b, whole, db := Physical(next), recs + Physical(next), Meaning(Shown(rows, recs), next).db;
    var ids := CommittedOf(whole);
    forall t: TxId ensures t in ids <==> t in CommittedOf(recs) || CommittedIn(b, t) {
      WholeCommitted(rows, recs, next, t);
      assert CommittedIn(b, t) ==> HarmlessPair(rows, recs, t, t);
    }
    IdsPositive(Shown(rows, recs), next);
    WholeReplay(rows, recs, next, ids, 0);
    var m := ReplayOf(rows, whole, ids).value;
    hide ValidLog, Meaning, Physical, CommittedOf, CommittedIn, CleanAt, OneEnd, Value, Replay, ReplayOf, Harmless,
         HarmlessPair;
    forall k
      ensures OneEnd(ChainAt(m, k)) <==> CleanAt(Shown(rows, recs), next, CommittedOf(b), k)
      ensures Mvcc.Lookup(Shown(rows, whole), k) == Mvcc.Lookup(db, k) <==> k in db || OneEnd(ChainAt(m, k))
    {
      WholeReplay(rows, recs, next, ids, k);
      ReadIsValueExactly(ChainAt(m, k));
      ShownAt(m, k);
    }
    if Careful(rows, recs, next) { SameLookups(Shown(rows, whole), db); }
  }

  // ---- short sessions that tell ----

  /** A session that begins and commits a transaction without touching a row. */
  function Idle<R>(t: TxId): seq<Record<R>> {
    [BeginRec(t), CommitRec(t)]
  }

  /** A session that inserts one row. */
  function Adds<R>(t: TxId, k: Key, row: R): seq<Record<R>> {
    Txn(InsertRec(t, k, row))
  }

  /** A session of an idle transaction and one that deletes row `k` if it is there. */
  function Erases<R>(t: TxId, u: TxId, k: Key, there: bool): seq<Record<R>> {
    Idle(u) + [BeginRec(t)] + (if there then [DeleteRec(t, k)] else []) + [CommitRec(t)]
  }

  lemma LogStep<R>(db: map<Key, R>, recs: seq<Record<R>>, r: Record<R>, s: LogState<R>)
    requires ValidLog(db, Logs(recs)) && Meaning(db, Logs(recs)) == s && EntryOk(s, Logged(r))
    ensures ValidLog(db, Logs(recs + [r])) && Meaning(db, Logs(recs + [r])) == RefStep(s, Logged(r))
  {
    LogsSnoc(recs, r);
    MeaningSnoc(db, Logs(recs), Logged(r));
  }

  function Quiet<R>(db: map<Key, R>, done: set<TxId>): LogState<R> {
    LogState(db, map[], done, db.Keys)
  }

  lemma BeginOk<R>(db: map<Key, R>, t: TxId)
    requires t > 0
    ensures ValidLog(db, Logs<R>([BeginRec(t)])) && Meaning(db, Logs<R>([BeginRec(t)])) == Quiet(db, {})
  {
    var none: seq<Record<R>> := [];
    assert none + [BeginRec(t)] == [BeginRec(t)];
    LogStep(db, none, BeginRec(t), Quiet(db, {}));
  }

  lemma IdleOk<R>(db: map<Key, R>, t: TxId)
    requires t > 0
    ensures ValidLog(db, Logs<R>(Idle(t))) && Meaning(db, Logs<R>(Idle(t))) == Quiet(db, {t})
  {
    var begin: seq<Record<R>> := [BeginRec(t)];
    hide Logs, ValidLog, Meaning;
    BeginOk(db, t);
    assert begin + [CommitRec(t)] == Idle<R>(t);
    LogStep(db, begin, CommitRec(t), Quiet(db, {}));
    assert Mvcc.Merge(db, map[]) == db;
  }

  function Txn<R>(r: Record<R>): seq<Record<R>> {
    [BeginRec(r.t), r, CommitRec(r.t)]
  }

  /** `r` can be the one write of a transaction after a log that ends in `s`. */
  ghost predicate TxnFits<R>(s: LogState<R>, r: Record<R>) {
    && s.bufs == map[] && r.t > 0 && r.t !in s.done
    && (r.InsertRec? || ((r.UpdateRec? || r.DeleteRec?) && r.k in s.known))
  }

  lemma TxnOpen<R>(db: map<Key, R>, recs: seq<Record<R>>, r: Record<R>, s: LogState<R>)
    requires ValidLog(db, Logs(recs)) && Meaning(db, Logs(recs)) == s && TxnFits(s, r)
    ensures Meaning(db, Logs(recs + [BeginRec(r.t)])) == s
    ensures var log := Logs(recs + [BeginRec(r.t)] + [r]);
      ValidLog(db, log) && Meaning(db, log) == s.Put(r.t, r.k, Leaves(r))
  {
    hide Logs, ValidLog, Meaning;
    LogStep(db, recs, BeginRec(r.t), s);
    LogStep(db, recs + [BeginRec(r.t)], r, s);
  }

  lemma CommitsOne<R>(s: LogState<R>, r: Record<R>)
    requires TxnFits(s, r)
    ensures var w := s.Put(r.t, r.k, Leaves(r));
      && EntryOk(w, Logged(CommitRec(r.t)))
      && RefStep(w, Logged(CommitRec(r.t)))
         == LogState(Mvcc.Merge(s.db, map[r.k := Leaves(r)]), map[], s.done + {r.t}, s.known + {r.k})
  {
    var w := s.Put(r.t, r.k, Leaves(r));
    assert w.bufs == map[r.t := map[r.k := Leaves(r)]];
    assert w.Drop(r.t).bufs == map[];
  }

  lemma OneTxn<R>(db: map<Key, R>, recs: seq<Record<R>>, r: Record<R>, s: LogState<R>)
    requires ValidLog(db, Logs(recs)) && Meaning(db, Logs(recs)) == s && TxnFits(s, r)
    ensures ValidLog(db, Logs(recs + Txn(r)))
    ensures Meaning(db, Logs(recs + Txn(r)))
         == LogState(Mvcc.Merge(s.db, map[r.k := Leaves(r)]), map[], s.done + {r.t}, s.known + {r.k})
  {
    var written := recs + [BeginRec(r.t)] + [r];
    assert written + [CommitRec(r.t)] == recs + Txn(r);
    hide ValidLog, Meaning, Logs, EntryOk, RefStep;
    TxnOpen(db, recs, r, s);
    CommitsOne(s, r);
    LogStep(db, written, CommitRec(r.t), s.Put(r.t, r.k, Leaves(r)));
  }

  lemma TxnClean<R>(db: map<Key, R>, recs: seq<Record<R>>, r: Record<R>, s: LogState<R>, c: set<TxId>)
    requires ValidLog(db, Logs(recs)) && Meaning(db, Logs(recs)) == s && TxnFits(s, r)
    requires Clean(db, Logs(recs), c) && (r.InsertRec? ==> r.k !in s.db)
    ensures Clean(db, Logs(recs + Txn(r)), c)
  {
    var begun := recs + [BeginRec(r.t)];
    assert begun + [r] + [CommitRec(r.t)] == recs + Txn(r);
    hide Logs, ValidLog, Meaning, Clean;
    TxnOpen(db, recs, r, s);
    CleanSnoc(db, recs, BeginRec(r.t), c);
    CleanSnoc(db, begun, r, c);
    CleanSnoc(db, begun + [r], CommitRec(r.t), c);
  }

  lemma CleanSnoc<R>(db: map<Key, R>, recs: seq<Record<R>>, r: Record<R>, c: set<TxId>)
    requires Clean(db, Logs(recs), c) && (r.InsertRec? ==> Meaning(db, Logs(recs)).View(r.t, r.k) == None)
    ensures Clean(db, Logs(recs + [r]), c)
  {
    LogsSnoc(recs, r);
    var log := Logs(recs + [r]);
    assert log[..|recs|] == Logs(recs);
    forall k ensures CleanAt(db, log, c, k) {
      assert CleanAt(db, Logs(recs), c, k);
    }
  }

  lemma AddsOk<R>(db: map<Key, R>, t: TxId, k: Key, row: R, c: set<TxId>)
    requires t > 0 && k !in db
    ensures ValidLog(db, Logs(Adds(t, k, row))) && Meaning(db, Logs(Adds(t, k, row))).db == db[k := row]
    ensures Clean(db, Logs(Adds(t, k, row)), c)
  {
    var none: seq<Record<R>> := [];
    assert none + Adds(t, k, row) == Adds(t, k, row);
    assert Mvcc.Merge(db, map[k := Some(row)]) == db[k := row];
    assert ValidLog(db, Logs(none)) && Meaning(db, Logs(none)) == Quiet(db, {}) && Clean(db, Logs(none), c);
    hide Logs, ValidLog, Meaning, Clean;
    OneTxn(db, none, InsertRec(t, k, row), Quiet(db, {}));
    TxnClean(db, none, InsertRec(t, k, row), Quiet(db, {}), c);
  }

  lemma ErasesOk<R>(db: map<Key, R>, t: TxId, u: TxId, k: Key)
    requires t > 0 && u > 0 && t != u
    ensures ValidLog(db, Logs<R>(Erases(t, u, k, k in db)))
    ensures Mvcc.Lookup(Meaning(db, Logs<R>(Erases(t, u, k, k in db))).db, k) == None
  {
    var begun: seq<Record<R>>, s: LogState<R> := Idle<R>(u) + [BeginRec(t)], Quiet(db, {u});
    hide Logs, ValidLog, Meaning;
    IdleOk(db, u);
    LogStep(db, Idle<R>(u), BeginRec(t), s);
    if k in db {
      LogStep(db, begun, DeleteRec(t, k), s);
      LogStep(db, begun + [DeleteRec(t, k)], CommitRec(t), s.Put(t, k, None));
    } else {
      assert begun + [] == begun;
      LogStep(db, begun, CommitRec(t), s);
    }
  }

  lemma {:induction false} NoInsertIsClean<R>(db: map<Key, R>, log: seq<Entry<R>>, c: set<TxId>, k: Key)
    requires forall i :: 0 <= i < |log| && log[i].Logged? ==> !log[i].r.InsertRec?
    ensures CleanAt(db, log, c, k)
    decreases |log|
  {
    if log != [] { NoInsertIsClean(db, log[..|log| - 1], c, k); }
  }

  /** A key that no record is about keeps its chain. */
  lemma {:induction false} Untouched<R>(m: Stored<R>, recs: seq<Record<R>>, k: Key)
    requires Replay(m, recs).Some? && forall r :: r in recs ==> !Writes(r, k)
    ensures ChainAt(Replay(m, recs).value, k) == ChainAt(m, k)
  {
    if recs != [] {
      assert recs[|recs| - 1] in recs;
      Untouched(m, recs[..|recs| - 1], k);
    }
  }

  lemma NotShown<R>(rows: map<Key, R>, recs: seq<Record<R>>, k: Key)
    requires Readable(rows, recs) && k !in rows
    requires forall r :: r in recs && r.t in CommittedOf(recs) ==> !Writes(r, k)
    ensures k !in Shown(rows, recs)
  {
    KeptFrom(recs, CommittedOf(recs));
    Untouched(Checkpointed(rows), Kept(recs, CommittedOf(recs)), k);
  }

  /** A key that neither rows nor log mention. */
  lemma UnusedKey<R>(rows: map<Key, R>, recs: seq<Record<R>>) returns (k: Key)
    ensures k !in rows && forall r :: r in recs ==> !Writes(r, k)
  {
    var a := AboveAll(rows.Keys);
    var b := AboveRecords(recs);
    k := if a < b then b else a;
  }

  lemma {:induction false} AboveAll(keys: set<Key>) returns (k: Key)
    ensures forall j: Key :: j in keys ==> j < k
    decreases keys
  {
    k := 0;
    if a: Key :| a in keys {
      var rest := keys - {a};
      k := AboveAll(rest);
      assert forall j: Key :: j in keys ==> j == a || j in rest;
      k := if k <= a then a + 1 else k;
    }
  }

  lemma {:induction false} AboveRecords<R>(recs: seq<Record<R>>) returns (k: Key)
    ensures forall r :: r in recs && (r.InsertRec? || r.UpdateRec? || r.DeleteRec?) ==> r.k < k
    decreases |recs|
  {
    k := 0;
    if recs != [] {
      var front, r := recs[..|recs| - 1], recs[|recs| - 1];
      k := AboveRecords(front);
      assert forall q :: q in recs ==> q in front || q == r;
      if (r.InsertRec? || r.UpdateRec? || r.DeleteRec?) && k <= r.k { k := r.k + 1; }
    }
  }

  /** An id above all in the file. */
  lemma {:induction false} AboveIds<R>(recs: seq<Record<R>>, least: TxId) returns (t: TxId)
    ensures t > least && forall r :: r in recs ==> r.t < t
    decreases |recs|
  {
    t := least + 1;
    if recs != [] {
      var front, r := recs[..|recs| - 1], recs[|recs| - 1];
      t := AboveIds(front, least);
      assert forall q :: q in recs ==> q in front || q == r;
      if t <= r.t { t := r.t + 1; }
    }
  }

  /** An id aborted in the file: its next commit is not recovered. */
  lemma AbortedIdLosesCommit<R>(rows: map<Key, R>, recs: seq<Record<R>>, t: TxId, row: R) returns (next: seq<Entry<R>>)
    requires Readable(rows, recs) && t >= NextId(recs) && AbortRec(t) in recs
    ensures NextSession(rows, recs, next) && Careful(rows, recs, next)
    ensures CommittedIn(Physical(next), t) && !RecoveredExactly(rows, recs, next)
  {
    var k := UnusedKey(rows, recs);
    next := Logs(Adds(t, k, row));
    NotShown(rows, recs, k);
    AddsOk(Shown(rows, recs), t, k, row, CommittedOf(Physical(next)));
    AddsFacts(t, k, row);
    hide ValidLog, Meaning, Physical, Logs, CommittedOf, Adds, Shown, Readable, CleanAt;
    var whole := recs + Physical(next);
    WholeCommitted(rows, recs, next, t);
    if Readable(rows, whole) {
      NotShown(rows, whole, k);
    }
  }

  lemma AddsFacts<R>(t: TxId, k: Key, row: R)
    ensures CommittedIn(Adds(t, k, row), t) && forall r :: r in Adds(t, k, row) ==> r.t == t
  {
    assert Adds(t, k, row)[2] == CommitRec(t);
  }

  /** An id whose leftover records change a row or cannot be replayed: its next commit
      brings them in, even if the transaction itself touches nothing. */
  lemma LeftoverComesBack<R>(rows: map<Key, R>, recs: seq<Record<R>>, t: TxId) returns (next: seq<Entry<R>>)
    requires Readable(rows, recs) && t >= NextId(recs) && AbortRec(t) !in recs && !Harmless(rows, recs, t)
    ensures NextSession(rows, recs, next) && Careful(rows, recs, next) && !RecoveredExactly(rows, recs, next)
  {
    next := Logs(Idle(t));
    var c := CommittedOf(recs);
    hide ReplayOf, Meaning, ValidLog, CommittedOf, RowsIn, Logs, Physical, Careful, Readable, NextSession, NextId;
    IdleCommits(rows, recs, t);
    IdleAddsNothing(rows, recs, t, c + {t});
    if Readable(rows, recs + Idle<R>(t)) {
      ShownIs(rows, recs + Idle<R>(t));
    }
  }

  lemma IdleAddsNothing<R>(rows: map<Key, R>, recs: seq<Record<R>>, t: TxId, ids: set<TxId>)
    ensures ReplayOf(rows, recs + Idle<R>(t), ids) == ReplayOf(rows, recs, ids)
  {
    assert recs + Idle<R>(t) == recs + [BeginRec(t)] + [CommitRec(t)];
    ReplayOfSnoc(rows, recs, BeginRec(t), ids);
    ReplayOfSnoc(rows, recs + [BeginRec(t)], CommitRec(t), ids);
    hide ReplayOf;
  }

  lemma IdleCommits<R>(rows: map<Key, R>, recs: seq<Record<R>>, t: TxId)
    requires Readable(rows, recs) && t >= NextId(recs) && AbortRec(t) !in recs
    ensures var next := Logs<R>(Idle(t));
      && NextSession(rows, recs, next) && Careful(rows, recs, next) && Physical(next) == Idle<R>(t)
      && Meaning(Shown(rows, recs), next).db == Shown(rows, recs)
    ensures CommittedOf(recs + Idle<R>(t)) == CommittedOf(recs) + {t}
  {
    var db, next := Shown(rows, recs), Logs<R>(Idle(t));
    IdleOk(db, t);
    hide ValidLog, CommittedOf, CommittedIn, Readable, Shown, Physical, CleanAt, Meaning;
    forall k ensures CleanAt(db, next, CommittedOf(Physical(next)), k) {
      NoInsertIsClean(db, next, CommittedOf(Physical(next)), k);
    }
    forall u: TxId ensures CommittedIn(Physical(next), u) <==> u in {t} {
      IdleCommitsOnly<R>(t, u);
    }
    WholeIs(rows, recs, next, {t});
  }

  lemma IdleCommitsOnly<R>(t: TxId, u: TxId)
    ensures CommittedIn<R>(Idle(t), u) <==> u == t
  {
    var recs := Idle<R>(t);
    assert u == t ==> recs[|recs| - 1] == CommitRec(u);
  }

  lemma ErasesFacts<R>(t: TxId, u: TxId, k: Key, there: bool)
    ensures var recs := Erases<R>(t, u, k, there);
      && (forall r :: r in recs ==> (r.t == t || r.t == u) && !r.InsertRec? && !r.AbortRec?)
      && (forall v :: CommittedIn(recs, v) <==> v == t || v == u)
  {
    var recs := Erases<R>(t, u, k, there);
    assert recs[1] == CommitRec(u) && recs[|recs| - 1] == CommitRec(t);
  }

  lemma ErasesCommitted<R>(t: TxId, u: TxId, k: Key, there: bool)
    ensures var next := Logs<R>(Erases(t, u, k, there));
      forall v: TxId :: CommittedIn(Physical(next), v) <==> v in {t, u}
  {
    ErasesFacts<R>(t, u, k, there);
  }

  lemma ErasesClean<R>(db: map<Key, R>, t: TxId, u: TxId, k: Key, there: bool, c: set<TxId>)
    ensures Clean(db, Logs<R>(Erases(t, u, k, there)), c)
  {
    var e := Erases<R>(t, u, k, there);
    ErasesFacts<R>(t, u, k, there);
    hide Erases, CommittedIn, CleanAt;
    forall j ensures CleanAt(db, Logs(e), c, j) {
      assert forall i :: 0 <= i < |e| ==> e[i] in e;
      NoInsertIsClean(db, Logs(e), c, j);
    }
  }

  lemma ErasesFollows<R>(rows: map<Key, R>, recs: seq<Record<R>>, t: TxId, u: TxId, k: Key)
    requires Readable(rows, recs) && t >= NextId(recs) && u >= NextId(recs) && t != u
    ensures var next := Logs<R>(Erases(t, u, k, k in Shown(rows, recs)));
      && NextSession(rows, recs, next) && Careful(rows, recs, next)
      && Mvcc.Lookup(Meaning(Shown(rows, recs), next).db, k) == None
  {
    var db := Shown(rows, recs);
    hide ValidLog, CommittedOf, CommittedIn, Readable, Shown, Physical, Clean, Erases, Meaning;
    ErasesOk(db, t, u, k);
    ErasesFacts<R>(t, u, k, k in db);
    ErasesClean(db, t, u, k, k in db, CommittedOf(Erases<R>(t, u, k, k in db)));
  }

  lemma ErasesCommits<R>(rows: map<Key, R>, recs: seq<Record<R>>, t: TxId, u: TxId, k: Key)
    requires Readable(rows, recs) && t >= NextId(recs) && u >= NextId(recs) && t != u
    requires AbortRec(t) !in recs && AbortRec(u) !in recs
    ensures var next := Logs<R>(Erases(t, u, k, k in Shown(rows, recs)));
      CommittedOf(recs + Physical(next)) == CommittedOf(recs) + {t, u}
  {
    hide *;
    var next := Logs<R>(Erases(t, u, k, k in Shown(rows, recs)));
    ErasesFollows(rows, recs, t, u, k);
    ErasesCommitted<R>(t, u, k, k in Shown(rows, recs));
    WholeIs(rows, recs, next, {t, u});
  }

  /** Two ids whose leftover records bury an undeleted version: once both have committed
      and the row of the key is deleted, that version is read. */
  lemma BuriedComesBack<R>(rows: map<Key, R>, recs: seq<Record<R>>, t: TxId, u: TxId) returns (next: seq<Entry<R>>)
    requires Readable(rows, recs) && t >= NextId(recs) && u >= NextId(recs) && t != u
    requires AbortRec(t) !in recs && AbortRec(u) !in recs && !Unburied(rows, recs, t, u)
    ensures NextSession(rows, recs, next) && Careful(rows, recs, next) && !RecoveredExactly(rows, recs, next)
  {
    var ids := CommittedOf(recs) + {t, u};
    hide ValidLog, Meaning, Kept, Physical, ReplayOf, CommittedOf, OneEnd, Readable, Erases, Logs, Careful, NextSession;
    var k :| !OneEnd(ChainAt(ReplayOf(rows, recs, ids).value, k));
    next := Logs(Erases(t, u, k, k in Shown(rows, recs)));
    ErasesFollows(rows, recs, t, u, k);
    ErasesCommits(rows, recs, t, u, k);
    if Readable(rows, recs + Physical(next)) {
      BuriedIsShown(rows, recs, Physical(next), ids, k);
    }
  }

  lemma BuriedIsShown<R>(rows: map<Key, R>, recs: seq<Record<R>>, more: seq<Record<R>>, ids: set<TxId>, k: Key)
    requires Readable(rows, recs + more) && CommittedOf(recs + more) == ids
    requires ReplayOf(rows, recs, ids).Some? && !OneEnd(ChainAt(ReplayOf(rows, recs, ids).value, k))
    ensures k in Shown(rows, recs + more)
  {
    KeptConcat(recs, more, ids);
    ReplayConcat(Checkpointed(rows), Kept(recs, ids), Kept(more, ids));
    KeptFrom(more, ids);
    hide Kept, Replay, CommittedOf, OneEnd, ReadOf, Value;
    BuriedStays(ReplayOf(rows, recs, ids).value, Kept(more, ids), k);
    var w := ReplayOf(rows, recs + more, ids).value;
    ReadIsValueExactly(ChainAt(w, k));
    ShownAt(w, k);
  }

  /** An id the file does not know changes nothing. */
  lemma FreshId<R>(rows: map<Key, R>, recs: seq<Record<R>>, t: TxId, v: TxId)
    requires forall r :: r in recs ==> r.t < v
    ensures ReplayOf(rows, recs, CommittedOf(recs) + {t, v}) == ReplayOf(rows, recs, CommittedOf(recs) + {t, t})
    ensures ReplayOf(rows, recs, CommittedOf(recs) + {v, v}) == ReplayOf(rows, recs, CommittedOf(recs))
  {
    var c := CommittedOf(recs);
    KeptAgree(recs, c + {t, v}, c + {t, t});
    KeptAgree(recs, c + {v, v}, c);
  }

  /** Reuse of ids.  Whatever sessions wrote a file that recovery can read: every careful
      session that can follow is recovered exactly if and only if any two ids from the
      first new one on are harmless: not aborted in the file, and without records there
      that fail, change a row or bury an undeleted version beneath the end of a chain. */
  lemma SessionsExactly<R>(rows: map<Key, R>, recs: seq<Record<R>>, row: R)
    requires Readable(rows, recs)
    ensures (forall next :: NextSession(rows, recs, next) && Careful(rows, recs, next) ==>
                RecoveredExactly(rows, recs, next))
       <==> forall t: TxId, u: TxId :: t >= NextId(recs) && u >= NextId(recs) ==> HarmlessPair(rows, recs, t, u)
  {
    if forall t: TxId, u: TxId :: t >= NextId(recs) && u >= NextId(recs) ==> HarmlessPair(rows, recs, t, u) {
      HarmlessIsEnough(rows, recs);
    } else {
      var t: TxId, u: TxId :| t >= NextId(recs) && u >= NextId(recs) && !HarmlessPair(rows, recs, t, u);
      var next := PairTells(rows, recs, t, u, row);
      hide NextSession, Careful, RecoveredExactly, HarmlessPair, Readable, NextId;
      assert NextSession(rows, recs, next) && Careful(rows, recs, next) && !RecoveredExactly(rows, recs, next);
    }
  }

  lemma HarmlessIsEnough<R>(rows: map<Key, R>, recs: seq<Record<R>>)
    requires Readable(rows, recs)
    requires forall t: TxId, u: TxId :: t >= NextId(recs) && u >= NextId(recs) ==> HarmlessPair(rows, recs, t, u)
    ensures forall next :: NextSession(rows, recs, next) && Careful(rows, recs, next) ==>
              RecoveredExactly(rows, recs, next)
  {
    var v := AboveIds(recs, NextId(recs));
    FreshId(rows, recs, v, v);
    assert HarmlessPair(rows, recs, v, v);
    hide ValidLog, RecoveredExactly, Readable, HarmlessPair, NextId, OneEnded, Careful;
    forall next | NextSession(rows, recs, next) && Careful(rows, recs, next)
      ensures RecoveredExactly(rows, recs, next)
    {
      forall t: TxId, u: TxId | CommittedIn(Physical(next), t) && CommittedIn(Physical(next), u)
        ensures HarmlessPair(rows, recs, t, u)
      {
        assert CommitRec(t) in Physical(next) && CommitRec(u) in Physical(next);
      }
      NextRecoveredExactly(rows, recs, next);
    }
  }

  lemma PairTells<R>(rows: map<Key, R>, recs: seq<Record<R>>, t: TxId, u: TxId, row: R) returns (next: seq<Entry<R>>)
    requires Readable(rows, recs) && t >= NextId(recs) && u >= NextId(recs) && !HarmlessPair(rows, recs, t, u)
    ensures NextSession(rows, recs, next) && Careful(rows, recs, next) && !RecoveredExactly(rows, recs, next)
  {
    hide ValidLog, NextSession, RecoveredExactly, Readable, Careful, CommittedOf;
    var bad := if Harmless(rows, recs, t) then u else t;
    if AbortRec(bad) in recs {
      next := AbortedIdLosesCommit(rows, recs, bad, row);
    } else if !Harmless(rows, recs, bad) {
      next := LeftoverComesBack(rows, recs, bad);
    } else if t != u {
      next := BuriedComesBack(rows, recs, t, u);
    } else {
      var v := AboveIds(recs, t);
      FreshId(rows, recs, t, v);
      next := BuriedComesBack(rows, recs, t, v);
    }
  }

  // -----------------------------------------------------------------
  // Any number of restarts
  // -----------------------------------------------------------------

  /** The file that some sessions wrote, one after the other. */
  ghost function FileOf<R>(sessions: seq<seq<Entry<R>>>): seq<Record<R>> {
    if sessions == [] then [] else FileOf(sessions[..|sessions| - 1]) + Physical(sessions[|sessions| - 1])
  }

  /** The rows they committed, session after session. */
  ghost function CommittedRows<R>(rows: map<Key, R>, sessions: seq<seq<Entry<R>>>): map<Key, R> {
    if sessions == [] then rows
    else Meaning(CommittedRows(rows, sessions[..|sessions| - 1]), sessions[|sessions| - 1]).db
  }

  /** Each session starts where recovery left off, is careful, and commits under harmless
      ids only. */
  ghost predicate AllCareful<R>(rows: map<Key, R>, sessions: seq<seq<Entry<R>>>)
    decreases |sessions|
  {
    sessions != [] ==>
      var front, next := sessions[..|sessions| - 1], sessions[|sessions| - 1];
      && AllCareful(rows, front) && NextSession(rows, FileOf(front), next)
      && Careful(rows, FileOf(front), next) && CommitsHarmless(rows, FileOf(front), next)
  }

  /** Through any number of sessions and restarts on one file, recovery shows exactly
      what all of them committed. */
  lemma {:induction false} EveryRestart<R>(rows: map<Key, R>, sessions: seq<seq<Entry<R>>>)
    requires AllCareful(rows, sessions)
    ensures var file := FileOf(sessions);
      && Readable(rows, file) && Shown(rows, file) == CommittedRows(rows, sessions)
      && OneEnded(ReplayOf(rows, file, CommittedOf(file)).value)
    decreases |sessions|
  {
    if sessions == [] {
      assert CommittedOf<R>([]) == {};
      SameLookups(RowsIn(Checkpointed(rows)), rows);
    } else {
      var front, next := sessions[..|sessions| - 1], sessions[|sessions| - 1];
      EveryRestart(rows, front);
      hide Meaning, Physical, CommittedOf, Careful, CommitsHarmless, NextSession, OneEnded;
      NextRecoveredExactly(rows, FileOf(front), next);
    }
  }

  // ---- instances ----

  const LOST: seq<Record<string>> := [BeginRec(1), InsertRec(1, 7, "lost")]

  lemma {:induction false} KeptNone<R>(recs: seq<Record<R>>)
    ensures Kept(recs, {}) == []
  {
    if recs != [] { KeptNone(recs[..|recs| - 1]); }
  }

  lemma {:induction false} KeptEverything<R>(recs: seq<Record<R>>, c: set<TxId>)
    requires forall i :: 0 <= i < |recs| ==> recs[i].t in c && !recs[i].IsOutcome()
    ensures Kept(recs, c) == recs
  {
    if recs != [] {
      KeptEverything(recs[..|recs| - 1], c);
      assert recs == recs[..|recs| - 1] + [recs[|recs| - 1]];
    }
  }

  ghost predicate AllBy<R>(recs: seq<Record<R>>, t: TxId) {
    forall i :: 0 <= i < |recs| ==> recs[i].t == t
  }

  lemma AllByConcat<R>(recs: seq<Record<R>>, more: seq<Record<R>>, t: TxId)
    requires AllBy(recs, t) && AllBy(more, t)
    ensures AllBy(recs + more, t)
  {
  }

  /** A log of one transaction. */
  lemma OneCommitted<R>(recs: seq<Record<R>>, t: TxId)
    requires AllBy(recs, t)
    ensures CommittedSet(Logs(recs)) == if CommittedIn(recs, t) then {t} else {}
  {
    forall u ensures u in CommittedSet(Logs(recs)) <==> u == t && CommittedIn(recs, t) {
      assert CommitRec(u) in recs ==> u == t;
    }
  }

  lemma NothingReplayed<R>(recs: seq<Record<R>>, t: TxId)
    requires AllBy(recs, t) && !CommittedIn(recs, t)
    ensures Reopened(Logs(recs)).next == 1
    ensures Replay(map[], Kept(Physical(Logs(recs)), CommittedSet(Logs(recs)))) == Some(map[])
  {
    OneCommitted(recs, t);
    KeptNone(recs);
  }

  /** Transaction 1 inserts a row and the engine crashes; after recovery nothing of
      it is left and the next transaction is given id 1 again. */
  lemma LostRowIsGone()
    ensures Reopened(Logs(LOST)).next == 1
    ensures Replay(map[], Kept(Physical(Logs(LOST)), CommittedSet(Logs(LOST)))) == Some(map[])
  {
    hide Replay, Kept, Physical, CommittedSet, Logs, Reopened;
    NothingReplayed(LOST, 1);
  }

  /** That transaction commits without touching the lost row; but its commit record
      now vouches for the old records too, and the next recovery brings the row back. */
  lemma ReusedIdResurrects()
    ensures var all := Logs(LOST + Adds(1, 8, "kept"));
      Replay(map[], Kept(Physical(all), CommittedSet(all)))
      == Some(map[7 := [Version("lost", 1, 0)], 8 := [Version("kept", 1, 0)]])
  {
    hide Replay, Kept, Physical, CommittedSet, Logs, InsertChain;
    var data: seq<Record<string>> := [BeginRec(1), InsertRec(1, 7, "lost"), BeginRec(1), InsertRec(1, 8, "kept")];
    var recs := data + [CommitRec(1)];
    assert LOST + Adds(1, 8, "kept") == recs && recs[4] == CommitRec(1);
    AllByConcat(data, [CommitRec(1)], 1);
    OneCommitted(recs, 1);
    AllKept(data, 1);
    ReplayInserts(1, 7, "lost", 1, 8, "kept");
  }

  lemma AllKept<R>(data: seq<Record<R>>, t: TxId)
    requires forall i :: 0 <= i < |data| ==> data[i].t == t && !data[i].IsOutcome()
    ensures Kept(data + [CommitRec(t)], {t}) == data
  {
    KeptEverything(data, {t});
    var recs := data + [CommitRec(t)];
    assert recs[..|data|] == data && recs[|data|] == CommitRec(t);
  }

  lemma ReplayInserts<R>(t: TxId, j: Key, v: R, u: TxId, k: Key, w: R)
    requires j != k
    ensures Replay(map[], [BeginRec(t), InsertRec(t, j, v), BeginRec(u), InsertRec(u, k, w)])
         == Some(map[j := [Version(v, t, 0)], k := [Version(w, u, 0)]])
  {
    var m: Stored<R> := map[];
    var a: Record<R>, b: Record<R>, c: Record<R>, d: Record<R> :=
      BeginRec(t), InsertRec(t, j, v), BeginRec(u), InsertRec(u, k, w);
    assert InsertChain([], t, v) == [Version(v, t, 0)] && InsertChain([], u, w) == [Version(w, u, 0)];
    ReplaySnoc(m, [], a);
    ReplaySnoc(m, [a], b);
    ReplaySnoc(m, [a, b], c);
    ReplaySnoc(m, [a, b, c], d);
    assert [] + [a] == [a] && [a] + [b] == [a, b];
    assert [a, b] + [c] == [a, b, c] && [a, b, c] + [d] == [a, b, c, d];
  }

  /** Transaction 1 aborts and the engine restarts.  The next transaction, number 1
      again, inserts a row and commits; the old abort record cancels the commit, and
      the next recovery finds no row at all. */
  lemma AcknowledgedCommitIsLost()
    ensures var old_: seq<Record<string>> := [BeginRec(1), InsertRec(1, 7, "undone"), AbortRec(1)];
      && Reopened(Logs(old_)).next == 1
      && CommittedIn(Adds(1, 8, "kept"), 1)
      && var all := Logs(old_ + Adds(1, 8, "kept"));
         Replay(map[], Kept(Physical(all), CommittedSet(all))) == Some(map[])
  {
    hide Replay, Kept, Physical, CommittedSet, Logs, Reopened;
    var old_: seq<Record<string>> := [BeginRec(1), InsertRec(1, 7, "undone"), AbortRec(1)];
    var new_: seq<Record<string>> := Adds(1, 8, "kept");
    assert new_[2] == CommitRec(1) && (old_ + new_)[2] == AbortRec(1);
    AllByConcat(old_, new_, 1);
    NothingReplayed(old_, 1);
    NothingReplayed(old_ + new_, 1);
  }

  // ---- a buried row ----

  /** Each session is careful and starts where recovery left off. */
  ghost predicate AllFollow<R>(rows: map<Key, R>, sessions: seq<seq<Entry<R>>>)
    decreases |sessions|
  {
    sessions != [] ==>
      var front, next := sessions[..|sessions| - 1], sessions[|sessions| - 1];
      && AllFollow(rows, front) && NextSession(rows, FileOf(front), next) && Careful(rows, FileOf(front), next)
  }

  const LEFT: seq<Record<string>> := [BeginRec(5), InsertRec(5, 7, "q")]
  const PUT: seq<Record<string>> := Adds(1, 7, "r")
  const GONE: seq<Record<string>> := [BeginRec(2), DeleteRec(2, 7)]
  const LATER: seq<Record<string>> := GONE + [CommitRec(2)] + Adds(5, 8, "x")

  lemma OneWrite<R>(m: Stored<R>, t: TxId, r: Record<R>)
    ensures Replay(m, [BeginRec(t), r]) == ReplayRec(m, r)
  {
    var none: seq<Record<R>>, begin: seq<Record<R>> := [], [BeginRec(t)];
    ReplaySnoc(m, none, BeginRec(t));
    ReplaySnoc(m, begin, r);
    assert none + [BeginRec(t)] == begin && begin + [r] == [BeginRec(t), r];
  }

  /** Session 1: transaction 5 inserts a row and the engine crashes. */
  lemma FirstSession()
    ensures NextSession(map[], [], Logs(LEFT)) && Careful(map[], [], Logs(LEFT))
    ensures Meaning(map[], Logs(LEFT)).db == map[]
    ensures CommittedOf(LEFT) == {} && ReplayOf(map[], LEFT, {}) == Some(map[])
    ensures Readable(map[], LEFT) && Shown(map[], LEFT) == map[] && NextId(LEFT) == 1
  {
    assert CommittedOf<string>([]) == {} && CommittedOf(LEFT) == {};
    assert Shown<string>(map[], []) == map[];
    KeptNone(LEFT);
    hide Logs, ValidLog, Meaning, CleanAt, Kept, Replay;
    LeftOk();
  }

  lemma LeftOk()
    ensures ValidLog(map[], Logs(LEFT)) && Meaning(map[], Logs(LEFT)).db == map[]
    ensures forall c :: Clean(map[], Logs(LEFT), c)
  {
    var rows: map<Key, string>, begin: seq<Record<string>>, r := map[], [BeginRec(5)], InsertRec(5, 7, "q");
    assert begin + [r] == LEFT;
    hide Logs, ValidLog, Meaning, CleanAt;
    BeginOk(rows, 5);
    LogStep(rows, begin, r, Quiet(rows, {}));
    forall c ensures Clean(rows, Logs(LEFT), c) {
      forall k ensures CleanAt(rows, Logs(begin), c, k) {
        NoInsertIsClean(rows, Logs(begin), c, k);
      }
      CleanSnoc(rows, begin, r, c);
    }
  }

  lemma PutKept(c: set<TxId>)
    requires 1 in c
    ensures Kept(LEFT + PUT, c) == (if 5 in c then LEFT else []) + [BeginRec(1), InsertRec(1, 7, "r")]
  {
    var data: seq<Record<string>> := [BeginRec(1), InsertRec(1, 7, "r")];
    if 5 in c {
      KeptEverything(LEFT, c);
    } else {
      KeptAgree(LEFT, c, {});
      KeptNone(LEFT);
    }
    KeptEverything(data, c);
    assert PUT == data + [CommitRec(1)];
    KeptSnoc(data, CommitRec(1), c);
    KeptConcat(LEFT, PUT, c);
  }

  lemma PutReplays(c: set<TxId>)
    requires 1 in c
    ensures ReplayOf(map[], LEFT + PUT, c)
         == Some(map[7 := if 5 in c then [Version("q", 5, 0), Version("r", 1, 0)] else [Version("r", 1, 0)]])
  {
    var none: Stored<string>, data: seq<Record<string>> := map[], [BeginRec(1), InsertRec(1, 7, "r")];
    assert Checkpointed<string>(map[]) == none;
    PutKept(c);
    hide Replay, Kept;
    if 5 in c {
      var q: Stored<string> := map[7 := [Version("q", 5, 0)]];
      ReplayConcat(none, LEFT, data);
      OneInsert(none, 5, 7, [], "q");
      assert Replay(none, LEFT) == Some(q);
      OneInsert(q, 1, 7, [Version("q", 5, 0)], "r");
      assert [Version("q", 5, 0)] + [Version("r", 1, 0)] == [Version("q", 5, 0), Version("r", 1, 0)];
    } else {
      assert [] + data == data;
      OneInsert(none, 1, 7, [], "r");
    }
  }

  lemma OneInsert<R>(m: Stored<R>, t: TxId, k: Key, c: Chain<R>, row: R)
    requires m == if c == [] then map[] else map[k := c]
    ensures Replay(m, [BeginRec(t), InsertRec(t, k, row)]) == Some(map[k := c + [Version(row, t, 0)]])
    ensures c == [] ==> c + [Version(row, t, 0)] == [Version(row, t, 0)]
  {
    OneWrite(m, t, InsertRec(t, k, row));
    hide Replay;
    assert ChainAt(m, k) == c;
    assert m[k := c + [Version(row, t, 0)]] == map[k := c + [Version(row, t, 0)]];
  }

  lemma PutBuries()
    ensures !Unburied(map[], LEFT + PUT, 5, 5)
  {
    var m: Stored<string> := map[7 := [Version("q", 5, 0), Version("r", 1, 0)]];
    PutCommitted();
    PutReplays({1} + {5, 5});
    hide ReplayOf, CommittedOf;
    assert ChainAt(m, 7)[0].xmax == 0;
    assert !OneEnd(ChainAt(m, 7));
  }

  lemma PutFollows()
    ensures NextSession(map[], LEFT, Logs(PUT)) && Careful(map[], LEFT, Logs(PUT))
    ensures Meaning(map[], Logs(PUT)).db == map[7 := "r"]
  {
    var rows: map<Key, string> := map[];
    hide ValidLog, Meaning, CleanAt, Kept, Replay, Adds, Logs, CommittedOf;
    FirstSession();
    AddsOk(rows, 1, 7, "r", CommittedOf(PUT));
    AddsFacts(1, 7, "r");
  }

  lemma PutCommitted()
    ensures CommittedOf(LEFT + PUT) == {1}
  {
    PutCommits();
    PutFollows();
    FirstSession();
    hide *;
    WholeIs(map[], LEFT, Logs(PUT), {1});
  }

  lemma PutCommits()
    ensures forall t: TxId :: CommittedIn(PUT, t) <==> t in {1}
    ensures AbortRec(1) !in LEFT && Physical(Logs(PUT)) == PUT
  {
    AddsFacts(1, 7, "r");
  }

  /** Session 2: transaction 1 inserts a row under the same key and commits; the engine
      crashes.  What transaction 5 left is not harmless any more. */
  lemma SecondSession()
    ensures NextSession(map[], LEFT, Logs(PUT)) && Careful(map[], LEFT, Logs(PUT))
    ensures Meaning(map[], Logs(PUT)).db == map[7 := "r"]
    ensures CommittedOf(LEFT + PUT) == {1} && Readable(map[], LEFT + PUT) && NextId(LEFT + PUT) == 2
    ensures Shown(map[], LEFT + PUT) == map[7 := "r"] && !HarmlessPair(map[], LEFT + PUT, 5, 5)
  {
    hide ValidLog, Meaning, CleanAt, Kept, Replay, Adds, Logs, CommittedOf, ReplayOf, NextSession, Careful, Unburied;
    PutFollows();
    PutCommitted();
    PutReplays({1});
    PutBuries();
    AddsFacts(1, 7, "r");
    assert forall r :: r in LEFT + PUT ==> r in LEFT || r in PUT;
    assert RowsIn(map[7 := [Version("r", 1, 0)]]) == map[7 := "r"];
  }

  const BURIED: Stored<string> := map[7 := [Version("q", 5, 0), Version("r", 1, 2)], 8 := [Version("x", 5, 0)]]

  lemma LaterOk()
    ensures ValidLog(map[7 := "r"], Logs(LATER)) && Meaning(map[7 := "r"], Logs(LATER)).db == map[8 := "x"]
    ensures Clean(map[7 := "r"], Logs(LATER), CommittedOf(LATER))
  {
    var db: map<Key, string>, none: seq<Record<string>> := map[7 := "r"], [];
    var gone, c := GONE + [CommitRec(2)], CommittedOf(LATER);
    var s: LogState<string> := LogState(map[], map[], {2}, {7});
    assert Mvcc.Merge(db, map[7 := None]) == s.db && Mvcc.Merge(s.db, map[8 := Some("x")]) == map[8 := "x"];
    assert none + Txn(DeleteRec(2, 7)) == gone;
    assert ValidLog(db, Logs(none)) && Meaning(db, Logs(none)) == Quiet(db, {}) && Clean(db, Logs(none), c);
    hide Logs, ValidLog, Meaning, Clean;
    OneTxn(db, none, DeleteRec(2, 7), Quiet(db, {}));
    TxnClean(db, none, DeleteRec(2, 7), Quiet(db, {}), c);
    OneTxn(db, gone, InsertRec(5, 8, "x"), s);
    TxnClean(db, gone, InsertRec(5, 8, "x"), s, c);
  }

  lemma LaterFacts()
    ensures forall t: TxId :: CommittedIn(LATER, t) <==> t in {2, 5}
    ensures forall r :: r in LATER ==> r.t >= 2
    ensures AbortRec(2) !in LEFT + PUT && AbortRec(5) !in LEFT + PUT && Physical(Logs(LATER)) == LATER
  {
    assert LATER[2] == CommitRec(2) && LATER[5] == CommitRec(5);
    assert |LATER| == 6;
  }

  lemma LaterReplays()
    ensures ReplayOf(map[], LEFT + PUT + LATER, {1, 2, 5}) == Some(BURIED)
  {
    var c: set<TxId>, more: seq<Record<string>> := {1, 2, 5}, [BeginRec(5), InsertRec(5, 8, "x")];
    var m: Stored<string> := map[7 := [Version("q", 5, 0), Version("r", 1, 0)]];
    var n: Stored<string> := map[7 := [Version("q", 5, 0), Version("r", 1, 2)]];
    LaterKept();
    KeptConcat(LEFT + PUT, LATER, c);
    ReplayConcat(Checkpointed(map[]), Kept(LEFT + PUT, c), GONE + more);
    PutReplays(c);
    ReplayConcat(m, GONE, more);
    OneWrite(m, 2, DeleteRec(2, 7));
    OneWrite(n, 5, InsertRec(5, 8, "x"));
    hide Replay, Kept;
    assert MarkLast(m[7], 2) == n[7];
    assert m[7 := n[7]] == n;
    assert InsertChain([], 5, "x") == [Version("x", 5, 0)];
    assert n[8 := [Version("x", 5, 0)]] == BURIED;
  }

  lemma LaterKept()
    ensures Kept(LATER, {1, 2, 5}) == GONE + [BeginRec(5), InsertRec(5, 8, "x")]
  {
    var c: set<TxId>, more: seq<Record<string>> := {1, 2, 5}, [BeginRec(5), InsertRec(5, 8, "x")];
    KeptConcat(GONE + [CommitRec(2)], Adds(5, 8, "x"), c);
    KeptEverything(GONE, c);
    KeptSnoc(GONE, CommitRec(2), c);
    KeptEverything(more, c);
    KeptSnoc(more, CommitRec(5), c);
    assert more + [CommitRec(5)] == Adds(5, 8, "x");
  }

  /** Session 3: transaction 2 deletes that row and commits, and transaction 5, under an
      id used before, inserts another one and commits.  After the next restart every
      reader gets the row that session 1 left behind, which no transaction committed,
      in place of the deleted one. */
  lemma BuriedRowIsRead()
    ensures var file := LEFT + PUT + LATER;
      && AllFollow(map[], [Logs(LEFT), Logs(PUT), Logs(LATER)])
      && CommittedRows(map[], [Logs(LEFT), Logs(PUT), Logs(LATER)]) == map[8 := "x"]
      && Readable(map[], LEFT + PUT) && !HarmlessPair(map[], LEFT + PUT, 5, 5)
      && Readable(map[], file) && Shown(map[], file) == map[7 := "q", 8 := "x"]
      && ReplayOf(map[], file, CommittedOf(file)) == Some(BURIED)
      && forall s, st :: Later(Books(file), s, st) ==> LeftRowIsRead(s, st)
  {
    LaterShows();
    SecondSession();
    hide *;
    SessionsFollow();
    LaterCommitted();
    LaterReplays();
    forall s, st | Later(Books(LEFT + PUT + LATER), s, st) ensures LeftRowIsRead(s, st) {
      BuriedRead(s, st);
    }
  }

  ghost predicate LeftRowIsRead(s: Snapshot, st: StatusMap) {
    RowSeen(BURIED[7], s, st) == Some("q")
  }

  lemma BuriedRead(s: Snapshot, st: StatusMap)
    requires Later(Books(LEFT + PUT + LATER), s, st)
    ensures LeftRowIsRead(s, st)
  {
    LaterShows();
    LaterCommitted();
    LaterReplays();
    hide CommittedOf, ReplayOf, Later, RowSeen, Readable;
    ShownIsRead(map[], LEFT + PUT + LATER, s, st, 7);
    ShownAt(BURIED, 7);
    assert Mvcc.Lookup(Shown(map[], LEFT + PUT + LATER), 7) == Some("q");
  }

  lemma LaterFollows()
    ensures NextSession(map[], LEFT + PUT, Logs(LATER)) && Careful(map[], LEFT + PUT, Logs(LATER))
  {
    hide ValidLog, Meaning, Clean, Kept, Replay, Adds, Logs, CommittedOf, ReplayOf, Shown, Readable;
    SecondSession();
    LaterOk();
    LaterFacts();
  }

  lemma LaterCommitted()
    ensures CommittedOf(LEFT + PUT + LATER) == {1, 2, 5}
  {
    hide *;
    SecondSession();
    LaterFollows();
    LaterFacts();
    WholeIs(map[], LEFT + PUT, Logs(LATER), {2, 5});
  }

  lemma LaterShows()
    ensures Readable(map[], LEFT + PUT + LATER) && Shown(map[], LEFT + PUT + LATER) == map[7 := "q", 8 := "x"]
  {
    LaterCommitted();
    LaterReplays();
    hide ReplayOf, CommittedOf;
    assert forall r :: r in LEFT + PUT + LATER ==> r.t > 0;
    assert ReadOf(BURIED[7]) == Some("q") && ReadOf(BURIED[8]) == Some("x");
    assert RowsIn(BURIED) == map[7 := "q", 8 := "x"];
  }

  lemma FollowSnoc<R>(rows: map<Key, R>, sessions: seq<seq<Entry<R>>>, next: seq<Entry<R>>)
    ensures FileOf(sessions + [next]) == FileOf(sessions) + Physical(next)
    ensures CommittedRows(rows, sessions + [next]) == Meaning(CommittedRows(rows, sessions), next).db
    ensures AllFollow(rows, sessions + [next])
       <==> AllFollow(rows, sessions) && NextSession(rows, FileOf(sessions), next)
            && Careful(rows, FileOf(sessions), next)
  {
    assert (sessions + [next])[..|sessions|] == sessions;
  }

  lemma SessionsFollow()
    ensures AllFollow(map[], [Logs(LEFT), Logs(PUT), Logs(LATER)])
    ensures CommittedRows(map[], [Logs(LEFT), Logs(PUT), Logs(LATER)]) == map[8 := "x"]
  {
    var none: seq<seq<Entry<string>>>, rows: map<Key, string> := [], map[];
    assert FileOf(none) == [] && CommittedRows(rows, none) == rows && AllFollow(rows, none);
    var one, two := none + [Logs(LEFT)], none + [Logs(LEFT)] + [Logs(PUT)];
    assert two + [Logs(LATER)] == [Logs(LEFT), Logs(PUT), Logs(LATER)];
    hide *;
    FirstSession();
    SecondSession();
    LaterFollows();
    LaterOk();
    FollowSnoc(rows, none, Logs(LEFT));
    FollowSnoc(rows, one, Logs(PUT));
    FollowSnoc(rows, two, Logs(LATER));
    assert [] + LEFT == LEFT;
  }

  // ---- an insert on an old snapshot, replayed ----

  const TWICE: seq<Record<string>> := Txn(InsertRec(1, 7, "b")) + Txn(InsertRec(2, 7, "a"))

  lemma {:induction false} CleanBefore<R>(db: map<Key, R>, recs: seq<Record<R>>, more: seq<Record<R>>, c: set<TxId>,
                                          k: Key)
    requires CleanAt(db, Logs(recs + more), c, k)
    ensures CleanAt(db, Logs(recs), c, k)
    decreases |more|
  {
    if more == [] {
      assert recs + more == recs;
    } else {
      var front := recs + more[..|more| - 1];
      assert recs + more == front + [more[|more| - 1]];
      LogsSnoc(front, more[|more| - 1]);
      assert Logs(recs + more)[..|front|] == Logs(front);
      CleanBefore(db, recs, more[..|more| - 1], c, k);
    }
  }

  lemma InsertIsUnclean<R>(db: map<Key, R>, recs: seq<Record<R>>, r: Record<R>, c: set<TxId>)
    requires r.InsertRec? && r.t in c && Meaning(db, Logs(recs)).View(r.t, r.k).Some?
    ensures !CleanAt(db, Logs(recs + [r]), c, r.k)
  {
    LogsSnoc(recs, r);
    assert Logs(recs + [r])[..|recs|] == Logs(recs);
  }

  lemma OnceInserted()
    ensures var log := Logs(Txn(InsertRec(1, 7, "b")));
      ValidLog(map[], log) && Meaning(map[], log) == LogState(map[7 := "b"], map[], {1}, {7})
  {
    var none: seq<Record<string>>, rows: map<Key, string> := [], map[];
    assert none + Txn(InsertRec(1, 7, "b")) == Txn(InsertRec(1, 7, "b"));
    assert Mvcc.Merge(rows, map[7 := Some("b")]) == map[7 := "b"];
    assert ValidLog(rows, Logs(none)) && Meaning(rows, Logs(none)) == Quiet(rows, {});
    hide Logs, ValidLog, Meaning;
    OneTxn(rows, none, InsertRec(1, 7, "b"), Quiet(rows, {}));
  }

  lemma TwiceInserted()
    ensures ValidLog(map[], Logs(TWICE))
    ensures Meaning(map[], Logs(TWICE)) == LogState(map[7 := "a"], map[], {1, 2}, {7})
  {
    var r: Record<string> := InsertRec(2, 7, "a");
    var s: LogState<string> := LogState(map[7 := "b"], map[], {1}, {7});
    assert Mvcc.Merge(s.db, map[7 := Some("a")]) == map[7 := "a"];
    hide Logs, ValidLog, Meaning;
    OnceInserted();
    OneTxn(map[], Txn(InsertRec(1, 7, "b")), r, s);
  }

  lemma TwiceIsUnclean(c: set<TxId>)
    requires 2 in c
    ensures !CleanAt(map[], Logs(TWICE), c, 7)
  {
    var one, r: Record<string> := Txn(InsertRec(1, 7, "b")), InsertRec(2, 7, "a");
    var s: LogState<string> := LogState(map[7 := "b"], map[], {1}, {7});
    assert one + [BeginRec(2)] + [r] + [CommitRec(2)] == TWICE;
    hide Logs, ValidLog, Meaning, CleanAt;
    OnceInserted();
    TxnOpen(map[], one, r, s);
    InsertIsUnclean(map[], one + [BeginRec(2)], r, c);
    if CleanAt(map[], Logs(TWICE), c, 7) { CleanBefore(map[], one + [BeginRec(2)] + [r], [CommitRec(2)], c, 7); }
  }

  /** Transaction 2 inserts, on a snapshot it pinned before transaction 1 committed, a row
      that is there already; then the row is deleted.  After recovery readers get a row. */
  lemma DeletedRowIsRead()
    ensures var recs := TWICE + Txn(DeleteRec(3, 7));
      && ValidLog(map[], Logs(recs)) && Meaning(map[], Logs(recs)).db == map[]
      && ReplayOf(map[], recs, CommittedOf(recs)).Some?
      && forall s, st :: Knows(s, st, CommittedOf(recs)) ==>
           RowSeen(ChainAt(ReplayOf(map[], recs, CommittedOf(recs)).value, 7), s, st).Some?
  {
    var recs := TWICE + Txn(DeleteRec(3, 7));
    hide *;
    ThenDeleted();
    RecoveryIsExact(map[], Logs(recs), CommittedOf(recs));
  }

  lemma ThenDeleted()
    ensures var recs := TWICE + Txn(DeleteRec(3, 7));
      && ValidLog(map[], Logs(recs)) && Meaning(map[], Logs(recs)).db == map[]
      && !CleanAt(map[], Logs(recs), CommittedOf(recs), 7)
      && ReplayOf(map[], recs, CommittedOf(recs))
         == Replay(Checkpointed(map[]), Kept(Physical(Logs(recs)), CommittedOf(recs)))
  {
    var recs, c := TWICE + Txn(DeleteRec(3, 7)), CommittedOf(TWICE + Txn(DeleteRec(3, 7)));
    var s: LogState<string> := LogState(map[7 := "a"], map[], {1, 2}, {7});
    var r: Record<string> := DeleteRec(3, 7);
    assert Mvcc.Merge(s.db, map[7 := None]) == map[] && TxnFits(s, r) && Leaves(r) == None;
    hide *;
    TwoCommitted();
    TwiceInserted();
    OneTxn(map[], TWICE, r, s);
    TwiceIsUnclean(c);
    if CleanAt(map[], Logs(recs), c, 7) { CleanBefore(map[], TWICE, Txn(r), c, 7); }
  }

  lemma TwoCommitted()
    ensures 2 in CommittedOf(TWICE + Txn(DeleteRec(3, 7)))
  {
    var recs := TWICE + Txn(DeleteRec(3, 7));
    assert recs[5] == CommitRec(2) && |recs| == 9;
    assert forall r :: r in recs ==> !r.AbortRec?;
  }
}
