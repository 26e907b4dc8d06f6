/** The engine with its log: what is in memory, what is in the file, and what a
    crash leaves.  Every step of Mvcc.dfy that changes rows also appends to the
    log; a transaction commits by appending its commit record, waiting until the
    file is synced that far, and only then publishing the outcome. */
module Durability {
  import opened Basics
  import opened Versions
  import opened Manager
  import opened Chains
  import opened Wal
  import opened Recovery
  import opened Mvcc
  import B = BPlusTree

  // -----------------------------------------------------------------
  // The state after recovery
  // -----------------------------------------------------------------

  function CommittedSet<R(==)>(log: seq<Entry<R>>): (s: set<TxId>)
    ensures forall t :: t in s <==> CommittedIn(Physical(log), t)
  {
    var commits, aborts := OutcomeSet(log, true), OutcomeSet(log, false);
    OutcomeSetMeaning(log, true);
    OutcomeSetMeaning(log, false);
    commits - aborts
  }

  function OutcomeSet<R>(log: seq<Entry<R>>, commit: bool): set<TxId> {
    if log == [] then {}
    else
      var e := log[|log| - 1];
      OutcomeSet(log[..|log| - 1], commit)
      + if e.Logged? && ((commit && e.r.CommitRec?) || (!commit && e.r.AbortRec?)) then {e.r.t} else {}
  }

  lemma {:induction false} OutcomeSetMeaning<R>(log: seq<Entry<R>>, commit: bool)
    ensures forall t :: t in OutcomeSet(log, commit)
              <==> (if commit then CommitRec(t) else AbortRec(t)) in Physical(log)
  {
    if log != [] {
      OutcomeSetMeaning(log[..|log| - 1], commit);
    }
  }

  /** The books after recovery: the next id follows the highest committed one. */
  function Reopened<R(==)>(log: seq<Entry<R>>): Txns {
    Txns(1, map[]).Bootstrap(MaxId(CommittedSet(log)))
  }

  ghost function Recovered<R>(rows: map<Key, R>, log: seq<Entry<R>>): State<R>
    requires ValidLog(rows, log)
  {
    ReplayEnds(rows, log, CommittedSet(log));
    State(Reopened(log), Replay(Checkpointed(rows), Kept(Physical(log), CommittedSet(log))).value,
          map[], {}, Meaning(rows, log).db, map[])
  }

  /** Snapshots taken after recovery take every replayed transaction for committed. */
  lemma LaterKnows(committed: set<TxId>, s: Snapshot, st: StatusMap)
    requires 0 !in committed && Later(Txns(1, map[]).Bootstrap(MaxId(committed)), s, st)
    ensures Knows(s, st, committed)
  {
    BootstrapOk(MaxId(committed));
  }

  /** A replayed chain with one end is as good as one that grew in memory. */
  lemma SettledInv<R>(c: Chain<R>, committed: set<TxId>, st: StatusMap, base: Option<R>)
    requires Settled(c, committed) && Value(c) == base && 0 !in st
    requires forall t :: t in committed ==> IsCommitted(st, t)
    ensures ChainInv(c, st, base, NoWriter) <==> OneEnd(c)
  {
    forall i | 0 <= i < |c| ensures Live(c[i], st) <==> c[i].xmax == 0 {
    }
    if !OneEnd(c) {
      var i :| 0 <= i < |c| - 1 && c[i].xmax == 0;
      assert Live(c[i], st) && !Superseding(c[|c| - 1], st, NoWriter);
    }
  }

  /** Whether the recovered engine satisfies the invariant of Mvcc.dfy, with the meaning
      of the log as its committed rows, so that all that is proved there holds from
      here on: exactly if no insert of a committed transaction met a row. */
  lemma RecoveredInvExactly<R>(rows: map<Key, R>, log: seq<Entry<R>>)
    requires ValidLog(rows, log)
    ensures Mvcc.Inv(Recovered(rows, log)) <==> Clean(rows, log, CommittedSet(log))
  {
    hide ValidLog, Replay, Meaning, Kept, Physical, Settled, Value, CommittedIn, ChainInv, CleanAt, OneEnd;
    var s := Recovered(rows, log);
    var committed := CommittedSet(log);
    ReplayEnds(rows, log, committed);
    assert log[..|log|] == log;
    BootstrapOk(MaxId(committed));
    forall t | t in committed ensures IsCommitted(s.txns.status, t) {
      ZeroNotCommitted(rows, log);
    }
    forall k ensures KeyInv(s, k) <==> CleanAt(rows, log, committed, k) {
      OneEndExactly(rows, log, |log|, committed, k);
      SettledInv(s.ChainOf(k), committed, s.txns.status, Lookup(s.db, k));
    }
  }

  /** No insert at all met a row. */
  ghost predicate Tidy<R>(rows: map<Key, R>, log: seq<Entry<R>>)
    decreases |log|
  {
    log != [] ==>
      var front, e := log[..|log| - 1], log[|log| - 1];
      Tidy(rows, front) && (e.Logged? && e.r.InsertRec? ==> Meaning(rows, front).View(e.r.t, e.r.k) == None)
  }

  lemma {:induction false} TidyIsClean<R>(rows: map<Key, R>, log: seq<Entry<R>>, committed: set<TxId>)
    requires Tidy(rows, log)
    ensures Clean(rows, log, committed)
    decreases |log|
  {
    if log != [] {
      TidyIsClean(rows, log[..|log| - 1], committed);
      forall k ensures CleanAt(rows, log, committed, k) {
        assert CleanAt(rows, log[..|log| - 1], committed, k);
      }
    }
  }

  lemma {:induction false} TidyPrefix<R>(rows: map<Key, R>, log: seq<Entry<R>>, n: nat)
    requires Tidy(rows, log) && n <= |log|
    ensures Tidy(rows, log[..n])
    decreases |log|
  {
    if n == |log| {
      assert log[..n] == log;
    } else {
      TidyPrefix(rows, log[..|log| - 1], n);
      assert log[..|log| - 1][..n] == log[..n];
    }
  }

  // -----------------------------------------------------------------
  // Checkpoints
  // -----------------------------------------------------------------

  /** The rows a checkpoint writes: whatever stands last in each chain. */
  function Payload<R>(chains: Stored<R>): map<Key, R> {
    map k | k in chains && chains[k] != [] :: chains[k][|chains[k]| - 1].row
  }

  /** The collection a checkpoint starts with; nothing is active, so the mark is the next id. */
  function AfterGc<R(==)>(m: State<R>, skipped: set<Key>): Stored<R> {
    CollectAll(m.chains, m.txns.status, m.txns.next, skipped)
  }

  /** The collector has not stepped over a key without live versions. */
  predicate NoDeadSkipped<R(==)>(m: State<R>, skipped: set<Key>) {
    forall k :: k in skipped && k in m.chains ==> GcChain(m.chains[k], m.txns.status, m.txns.next) != []
  }

  lemma LiveOnce<R>(c: Chain<R>, st: StatusMap, base: Option<R>, p: Pending<R>)
    requires ChainInv(c, st, base, p)
    ensures |c| >= 2 ==> !Live(c[0], st) || !Live(c[1], st)
    ensures |c| == 1 && Live(c[0], st) ==> base == Some(c[0].row)
    ensures c == [] ==> base == None
  {
  }

  /** Between transactions a version is either reclaimable or live. */
  lemma QuietVersion<R>(v: Version<R>, m: Txns)
    requires m.Ok() && m.ActiveIds() == {} && IdsOk(v, m.status) && !Reclaimable(v, m.status, m.next)
    ensures Live(v, m.status)
  {
    assert v.xmin in m.status ==> v.xmin !in m.ActiveIds();
    assert v.xmax in m.status ==> v.xmax !in m.ActiveIds();
  }

  /** Between transactions, collection leaves the live version of a key and nothing else. */
  lemma QuietChain<R>(c: Chain<R>, m: Txns, base: Option<R>)
    requires m.Ok() && m.ActiveIds() == {} && ChainInv(c, m.status, base, NoWriter)
    ensures var g := GcChain(c, m.status, m.next);
      |g| <= 1 && (g == [] <==> base == None) && (g != [] ==> base == Some(g[0].row))
  {
    hide GcChain;
    var g := GcChain(c, m.status, m.next);
    GcKeepsInv(c, m.status, base, NoWriter, m.next);
    LiveOnce(g, m.status, base, NoWriter);
    forall i | 0 <= i < |g| ensures Live(g[i], m.status) {
      GcSurvivor(c, m.status, m.next, i);
      QuietVersion(g[i], m);
    }
  }

  lemma {:induction false} GcSurvivor<R>(c: Chain<R>, st: StatusMap, horizon: nat, i: nat)
    requires i < |GcChain(c, st, horizon)|
    ensures !Reclaimable(GcChain(c, st, horizon)[i], st, horizon)
  {
    if i < |GcChain(c[..|c| - 1], st, horizon)| {
      GcSurvivor(c[..|c| - 1], st, horizon, i);
    }
  }

  lemma NoActiveNoWriter<R>(m: State<R>, k: Key)
    requires Mvcc.Inv(m) && m.txns.ActiveIds() == {}
    ensures m.PendingOf(k) == NoWriter
  {
    if k in m.owner {
      var t := m.owner[k];
      assert t in m.writes ==> WritesOk(m, t);
      assert t !in m.txns.ActiveIds();
    }
  }

  lemma CheckpointKey<R>(m: State<R>, skipped: set<Key>, k: Key)
    requires Mvcc.Inv(m) && m.txns.ActiveIds() == {}
    ensures var p := Payload(AfterGc(m, skipped));
      if k in m.chains && k in skipped && GcChain(m.chains[k], m.txns.status, m.txns.next) == []
      then k in p && k !in m.db
      else Lookup(p, k) == Lookup(m.db, k)
  {
    hide ChainInv, State.PendingOf;
    assert KeyInv(m, k);
    NoActiveNoWriter(m, k);
    QuietChain(m.ChainOf(k), m.txns, Lookup(m.db, k));
  }

  /** What the collector steps over in a tree with these leaves. */
  ghost function SkippedIn<R>(m: State<R>, layout: seq<seq<Key>>): set<Key> {
    B.Spared(layout, Alive(m.chains, m.txns.status, m.txns.next))
  }

  /** In some leaf two keys without a live version stand side by side. */
  ghost predicate DeadNeighbours<R>(m: State<R>, layout: seq<seq<Key>>) {
    B.Neighbours(layout, Alive(m.chains, m.txns.status, m.txns.next))
  }

  lemma {:induction false} SkimKeys(keys: seq<Key>, keep: set<Key>)
    ensures forall k :: k in B.Skim(keys, keep) ==> k in keys
    decreases |keys|
  {
    if |keys| >= 2 {
      SkimKeys(keys[1..], keep);
      SkimKeys(keys[2..], keep);
    }
  }

  /** A checkpoint writes the committed rows exactly if no leaf of the tree holds two
      neighbouring keys without a live version: the collector steps over the second
      of them, and the file gets a deleted row. */
  lemma CheckpointExactly<R>(m: State<R>, layout: seq<seq<Key>>)
    requires Mvcc.Inv(m) && m.txns.ActiveIds() == {} && B.Laid(layout, m.chains.Keys)
    ensures Payload(AfterGc(m, SkippedIn(m, layout))) == m.db <==> !DeadNeighbours(m, layout)
  {
    var skipped := SkippedIn(m, layout);
    var keep := Alive(m.chains, m.txns.status, m.txns.next);
    B.SparedNoneExactly(layout, keep);
    forall k | k in skipped ensures k in m.chains && k !in keep {
      var i :| 0 <= i < |layout| && k in B.Skim(layout[i], keep);
      SkimKeys(layout[i], keep);
    }
    hide B.Neighbours, B.Spared, B.Skim, GcChain, Payload, AfterGc, Mvcc.Inv, SkippedIn;
    PayloadExactly(m, skipped);
    if k :| k in skipped {
      assert GcChain(m.chains[k], m.txns.status, m.txns.next) == [];
    }
  }

  lemma PayloadExactly<R>(m: State<R>, skipped: set<Key>)
    requires Mvcc.Inv(m) && m.txns.ActiveIds() == {}
    ensures Payload(AfterGc(m, skipped)) == m.db <==> NoDeadSkipped(m, skipped)
  {
    var p := Payload(AfterGc(m, skipped));
    if NoDeadSkipped(m, skipped) {
      forall k ensures Lookup(p, k) == Lookup(m.db, k) {
        CheckpointKey(m, skipped, k);
      }
      SameLookups(p, m.db);
    } else {
      var k :| k in skipped && k in m.chains && GcChain(m.chains[k], m.txns.status, m.txns.next) == [];
      CheckpointKey(m, skipped, k);
    }
  }

  // A run that ends in such a tree: one transaction deletes two neighbouring rows.

  const TWO_ROWS: map<Key, string> := map[1 := "a", 2 := "b"]
  const DELETER := SnapRec(Snapshot(1, 2, {1}), TWO_ROWS, {1, 2})

  function Deleting(owner: map<Key, TxId>, snaps: set<SnapRec<string>>, first: TxId, second: TxId,
                    writes: map<TxId, map<Key, Option<string>>>): State<string> {
    State(Txns(2, map[1 := Active]), map[1 := [Version("a", 0, first)], 2 := [Version("b", 0, second)]],
          owner, snaps, TWO_ROWS, writes)
  }

  function Deleted(): State<string> {
    State(Txns(2, map[1 := Committed]), map[1 := [Version("a", 0, 1)], 2 := [Version("b", 0, 1)]],
          map[1 := 1, 2 := 1], {}, map[], map[])
  }

  lemma DeleterBegins()
    ensures var s := Start(TWO_ROWS, Txns(1, map[]));
      Enabled(s, BeginTx) && Next(s, BeginTx) == Deleting(map[], {}, 0, 0, map[])
  {
  }

  lemma DeleterLocks()
    ensures var s, t, u := Deleting(map[], {}, 0, 0, map[]), Deleting(map[1 := 1], {}, 0, 0, map[]),
                           Deleting(map[1 := 1, 2 := 1], {}, 0, 0, map[]);
      Enabled(s, Lock(1, 1)) && Next(s, Lock(1, 1)) == t && Enabled(t, Lock(1, 2)) && Next(t, Lock(1, 2)) == u
  {
  }

  lemma DeleterLooks()
    ensures var s, t := Deleting(map[1 := 1, 2 := 1], {}, 0, 0, map[]),
                        Deleting(map[1 := 1, 2 := 1], {DELETER}, 0, 0, map[]);
      Enabled(s, Take(1)) && Next(s, Take(1)) == t
  {
    var s := Deleting(map[1 := 1, 2 := 1], {}, 0, 0, map[]);
    assert s.LockedBy(1) == {1, 2} && s.txns.ActiveIds() == {1};
  }

  lemma DeleterDeletesFirst()
    ensures var s := Deleting(map[1 := 1, 2 := 1], {DELETER}, 0, 0, map[]);
      && Enabled(s, Delete(DELETER, 1))
      && Next(s, Delete(DELETER, 1)) == Deleting(map[1 := 1, 2 := 1], {DELETER}, 1, 0, map[1 := map[1 := None]])
  {
    var s := Deleting(map[1 := 1, 2 := 1], {DELETER}, 0, 0, map[]);
    assert s.ChainOf(1) == [Version("a", 0, 0)];
    LoneVersion("a", s.txns.status);
    hide Pick, OwnIndex, DeleteChain, LiveIsLast;
  }

  lemma DeleterDeletesSecond()
    ensures var s := Deleting(map[1 := 1, 2 := 1], {DELETER}, 1, 0, map[1 := map[1 := None]]);
      && Enabled(s, Delete(DELETER, 2))
      && Next(s, Delete(DELETER, 2))
         == Deleting(map[1 := 1, 2 := 1], {DELETER}, 1, 1, map[1 := map[1 := None, 2 := None]])
  {
    var s := Deleting(map[1 := 1, 2 := 1], {DELETER}, 1, 0, map[1 := map[1 := None]]);
    assert s.ChainOf(2) == [Version("b", 0, 0)];
    LoneVersion("b", s.txns.status);
    hide Pick, OwnIndex, DeleteChain, LiveIsLast;
  }

  lemma LoneVersion(row: string, st: StatusMap)
    requires st == map[1 := Active]
    ensures var c := [Version(row, 0, 0)];
      && Pick(c, DELETER.snap, st) == Some(c[0]) && OwnIndex(c, 1) == None && LiveIsLast(c, st)
      && DeleteChain(c, 1).0 == [Version(row, 0, 1)]
  {
    var c := [Version(row, 0, 0)];
    assert c[..0] == [];
  }

  lemma DeleterCommits()
    ensures var s := Deleting(map[1 := 1, 2 := 1], {DELETER}, 1, 1, map[1 := map[1 := None, 2 := None]]);
      Enabled(s, Commit(1)) && Next(s, Commit(1)) == Deleted()
  {
    var s := Deleting(map[1 := 1, 2 := 1], {DELETER}, 1, 1, map[1 := map[1 := None, 2 := None]]);
    assert Merge(s.db, s.WritesOf(1)) == map[];
  }

  function DeleterRun(): seq<Action<string>> {
    [BeginTx, Lock(1, 1), Lock(1, 2), Take(1), Delete(DELETER, 1), Delete(DELETER, 2), Commit(1)]
  }

  lemma DeleterRuns()
    ensures var s := Start(TWO_ROWS, Txns(1, map[])); RunOk(s, DeleterRun()) && After(s, DeleterRun()) == Deleted()
  {
    hide Enabled, Next, Deleting, Deleted;
    var s := Start(TWO_ROWS, Txns(1, map[]));
    var owner: map<Key, TxId> := map[1 := 1, 2 := 1];
    var s1, s2 := Deleting(map[], {}, 0, 0, map[]), Deleting(map[1 := 1], {}, 0, 0, map[]);
    var s3, s4 := Deleting(owner, {}, 0, 0, map[]), Deleting(owner, {DELETER}, 0, 0, map[]);
    var s5 := Deleting(owner, {DELETER}, 1, 0, map[1 := map[1 := None]]);
    var s6 := Deleting(owner, {DELETER}, 1, 1, map[1 := map[1 := None, 2 := None]]);
    var none: seq<Action<string>> := [];
    DeleterBegins();
    DeleterLocks();
    DeleterLooks();
    DeleterDeletesFirst();
    DeleterDeletesSecond();
    DeleterCommits();
    assert RunOk(s, none) && After(s, none) == s;
    RunMore(s, none, BeginTx, s1);
    RunMore(s, none + [BeginTx], Lock(1, 1), s2);
    RunMore(s, none + [BeginTx] + [Lock(1, 1)], Lock(1, 2), s3);
    var some := none + [BeginTx] + [Lock(1, 1)] + [Lock(1, 2)];
    RunMore(s, some, Take(1), s4);
    RunMore(s, some + [Take(1)], Delete(DELETER, 1), s5);
    RunMore(s, some + [Take(1)] + [Delete(DELETER, 1)], Delete(DELETER, 2), s6);
    RunMore(s, some + [Take(1)] + [Delete(DELETER, 1)] + [Delete(DELETER, 2)], Commit(1), Deleted());
    assert some + [Take(1)] + [Delete(DELETER, 1)] + [Delete(DELETER, 2)] + [Commit(1)] == DeleterRun();
  }

  /** After that run no row is left, and the checkpoint writes row 2. */
  lemma CheckpointWritesDeletedRow()
    ensures var s := Start(TWO_ROWS, Txns(1, map[]));
      && RunOk(s, DeleterRun())
      && var m := After(s, DeleterRun());
      && m.txns.ActiveIds() == {} && m.db == map[] && B.Laid([[1, 2]], m.chains.Keys)
      && Payload(AfterGc(m, SkippedIn(m, [[1, 2]]))) == map[2 := "b"]
  {
    DeletedIsQuiet();
    DeletedPayload();
    hide *;
    DeleterRuns();
  }

  lemma DeletedIsQuiet()
    ensures Deleted().txns.ActiveIds() == {} && Deleted().db == map[] && B.Laid([[1, 2]], Deleted().chains.Keys)
  {
    var layout := [[1, 2]];
    assert layout[0] == [1, 2];
  }

  lemma DeletedPayload()
    ensures Payload(AfterGc(Deleted(), SkippedIn(Deleted(), [[1, 2]]))) == map[2 := "b"]
  {
    var m := Deleted();
    DeadRow("a", m);
    DeadRow("b", m);
    hide GcChain;
    assert Alive(m.chains, m.txns.status, 2) == {};
    B.SparedOfTwo(1, 2, {});
    assert AfterGc(m, {2}) == map[2 := [Version("b", 0, 1)]];
  }

  lemma DeadRow(row: string, m: State<string>)
    requires m == Deleted()
    ensures GcChain([Version(row, 0, 1)], m.txns.status, 2) == []
  {
    var c := [Version(row, 0, 1)];
    assert c[..0] == [];
  }

  lemma SameLookups<R>(a: map<Key, R>, b: map<Key, R>)
    requires forall k :: Lookup(a, k) == Lookup(b, k)
    ensures a == b
  {
    forall k ensures k in a <==> k in b {
      assert Lookup(a, k) == Lookup(b, k);
    }
    forall k | k in a ensures a[k] == b[k] {
      assert Lookup(a, k) == Lookup(b, k);
    }
  }

  // -----------------------------------------------------------------
  // Runs with a log
  // -----------------------------------------------------------------

  /** `log[..durable]` is what a crash cannot take away. */
  datatype Sys<R(==)> = Sys(
    rows: map<Key, R>,         // checkpoint
    log: seq<Entry<R>>,
    durable: nat,
    m: State<R>,
    started: set<TxId>,        // running transactions with a begin record
    committing: set<TxId>,     // commit record written, outcome not yet published
    acked: set<TxId>)          // commits reported to their clients since the checkpoint
  {
    function OnDisk(): seq<Entry<R>> {
      if durable <= |log| then log[..durable] else log
    }
  }

  datatype SysAction<R(==)> =
    | Inner(a: Action<R>)
    | LogBegin(t: TxId)
    | LogCommit(t: TxId)
    | Sync(n: nat)
    | Publish(t: TxId)
    | Cancel(t: TxId)
    | CrashAt(n: nat)
    | Checkpoint(layout: seq<seq<Key>>)

  /** The record that goes with a change of rows. */
  function RecordOf<R(==)>(a: Action<R>): Option<Record<R>> {
    match a
    case Insert(r, k, row) => Some(InsertRec(r.snap.txid, k, row))
    case Update(r, k, row) => Some(UpdateRec(r.snap.txid, k, row))
    case Delete(r, k) => Some(DeleteRec(r.snap.txid, k))
    case _ => None
  }

  /** A crash may strike anywhere behind the synced part of the log.  The one thing
      these runs leave out is a transaction that writes under an id finished or lost
      in an earlier session; Sessions.dfy says exactly when that does harm. */
  ghost predicate SysEnabled<R>(s: Sys<R>, a: SysAction<R>) {
    match a
    case Inner(a) =>
      && Enabled(s.m, a) && !a.Commit? && !a.Abort?
      && (RecordOf(a).Some? ==> RecordOf(a).value.t in s.started && RecordOf(a).value.t !in s.committing)
    case LogBegin(t) => s.m.Running(t) && t !in s.started && t !in Meaning(s.rows, s.log).done
    case LogCommit(t) => s.m.Running(t) && t in s.started && t !in s.committing
    case Sync(n) => s.durable <= n <= |s.log|
    case Publish(t) =>
      s.m.Running(t) && (t in s.started ==> t in s.committing && Logged(CommitRec(t)) in s.OnDisk())
    case Cancel(t) => s.m.Running(t) && t !in s.committing
    case Checkpoint(layout) =>
      s.m.txns.ActiveIds() == {} && B.Laid(layout, s.m.chains.Keys) && !DeadNeighbours(s.m, layout)
    case CrashAt(n) => s.durable <= n <= |s.log|
  }

  function Logging<R(==)>(s: Sys<R>, r: Record<R>): Sys<R> {
    s.(log := s.log + [Logged(r)])
  }

  ghost function SysNext<R>(s: Sys<R>, a: SysAction<R>): Sys<R>
    requires SysEnabled(s, a) && (a.CrashAt? ==> ValidLog(s.rows, s.log[..a.n]))
  {
    match a
    case Inner(a) =>
      (if RecordOf(a).Some? then Logging(s, RecordOf(a).value) else s).(m := Next(s.m, a))
    case LogBegin(t) => Logging(s, BeginRec(t)).(started := s.started + {t})
    case LogCommit(t) => Logging(s, CommitRec(t)).(committing := s.committing + {t})
    case Sync(n) => s.(durable := n)
    case Publish(t) =>
      s.(m := Next(s.m, Commit(t)), committing := s.committing - {t}, started := s.started - {t},
         acked := if t in s.started then s.acked + {t} else s.acked)
    case Cancel(t) =>
      (if t in s.started then Logging(s, AbortRec(t)) else s).(m := Next(s.m, Abort(t)), started := s.started - {t})
    case Checkpoint(layout) => Opened(Payload(AfterGc(s.m, SkippedIn(s.m, layout))))
    case CrashAt(n) =>
      Sys(s.rows, s.log[..n] + [Crash], n + 1, Recovered(s.rows, s.log[..n]), {}, {}, s.acked)
  }

  /** A fresh engine over a checkpoint, with an empty log. */
  function Opened<R(==)>(rows: map<Key, R>): Sys<R> {
    Sys(rows, [], 0, Start(rows, Txns(1, map[])), {}, {}, {})
  }

  /** The row the log means for `k`: memory, plus the one write set that is
      committed in the log and not yet published. */
  ghost predicate KeyLogged<R>(s: Sys<R>, k: Key) {
    Lookup(Meaning(s.rows, s.log).db, k) ==
      match s.m.PendingOf(k)
      case Writer(t, v) => if t in s.committing then v else Lookup(s.m.db, k)
      case NoWriter => Lookup(s.m.db, k)
  }

  /** The write set of an unfinished transaction is the same in log and memory. */
  ghost predicate TxnLogged<R>(s: Sys<R>, t: TxId) {
    var l := Meaning(s.rows, s.log);
    && (t in l.bufs ==> t in s.started && t !in s.committing)
    && (t in s.started ==> s.m.Running(t) && t > 0)
    && (t in s.committing ==> t in s.started)
    && (t !in s.started ==> s.m.WritesOf(t) == map[])
    && (t !in s.committing ==> l.BufOf(t) == s.m.WritesOf(t))
    && (t in l.done && t in s.started ==> t in s.committing)
    && (t in s.acked ==> Logged(CommitRec(t)) in s.OnDisk())
  }

  /** What a snapshot may show, the log knows of. */
  ghost predicate KeysKnown<R>(s: Sys<R>) {
    var l := Meaning(s.rows, s.log);
    && s.m.db.Keys <= l.known
    && (forall r, k :: r in s.m.snaps && k in r.view ==> k in l.known)
    && (forall t, k :: t in s.committing && k in s.m.WritesOf(t) ==> k in l.known)
  }

  ghost predicate SysInv<R>(s: Sys<R>) {
    && Mvcc.Inv(s.m) && ValidLog(s.rows, s.log) && Tidy(s.rows, s.log) && s.durable <= |s.log| && KeysKnown(s)
    && (forall t {:trigger TxnLogged(s, t)} :: TxnLogged(s, t))
    && (forall k {:trigger KeyLogged(s, k)} :: KeyLogged(s, k))
  }

  lemma OpenedInv<R>(rows: map<Key, R>)
    ensures SysInv(Opened(rows))
  {
    StartInv(rows, Txns(1, map[]));
  }

  lemma MeaningSnoc<R>(rows: map<Key, R>, log: seq<Entry<R>>, e: Entry<R>)
    requires ValidLog(rows, log)
    ensures Meaning(rows, log + [e]) == RefStep(Meaning(rows, log), e)
    ensures EntryOk(Meaning(rows, log), e) ==> ValidLog(rows, log + [e])
    ensures Tidy(rows, log) && (e.Logged? && e.r.InsertRec? ==> Meaning(rows, log).View(e.r.t, e.r.k) == None)
            ==> Tidy(rows, log + [e])
  {
    var l := log + [e];
    assert l[..|log|] == log;
  }

  lemma DurablePrefix<R>(s: Sys<R>, e: Entry<R>)
    requires s.durable <= |s.log|
    ensures (s.log + [e])[..s.durable] == s.log[..s.durable]
  {
  }

  /** Memory and log agree on the holder of a row lock and on what it reads. */
  lemma SameView<R>(s: Sys<R>, r: SnapRec<R>, k: Key)
    requires SysInv(s) && Holds(s.m, r, k) && r.snap.txid !in s.committing
    ensures Meaning(s.rows, s.log).View(r.snap.txid, k) == Own(Lookup(s.m.db, k), s.m.PendingOf(k), r.snap.txid)
    ensures Meaning(s.rows, s.log).LockFree(r.snap.txid, k)
    ensures Meaning(s.rows, s.log).BufOf(r.snap.txid) == s.m.WritesOf(r.snap.txid)
  {
    var t, l := r.snap.txid, Meaning(s.rows, s.log);
    HolderRuns(s.m, r, k);
    PendingWrites(s.m, k, t);
    assert TxnLogged(s, t) && KeyLogged(s, k);
    hide ValidLog, Mvcc.Inv, Meaning;
    forall u | u in l.bufs && k in l.bufs[u] ensures u == t {
      assert TxnLogged(s, u);
      PendingWrites(s.m, k, u);
    }
  }

  lemma DataEntryOk<R>(s: Sys<R>, a: Action<R>)
    requires SysInv(s) && SysEnabled(s, Inner(a)) && RecordOf(a).Some?
    ensures EntryOk(Meaning(s.rows, s.log), Logged(RecordOf(a).value))
    ensures a.Insert? ==> Meaning(s.rows, s.log).View(a.r.snap.txid, a.k) == None
  {
    var r, m := a.r, s.m;
    assert TxnLogged(s, r.snap.txid);
    SameView(s, r, a.k);
    HolderRuns(m, r, a.k);
    HolderFacts(m.ChainOf(a.k), m.txns.status, Lookup(m.db, a.k), m.PendingOf(a.k), r.snap.txid);
    if !a.Insert? { ShownIsKnown(s, r, a.k); }
    hide ValidLog, Mvcc.Inv, Meaning, Tidy;
  }

  lemma ShownIsKnown<R>(s: Sys<R>, r: SnapRec<R>, k: Key)
    requires SysInv(s) && r in s.m.snaps && Pick(s.m.ChainOf(k), r.snap, s.m.txns.status) != None
    ensures k in Meaning(s.rows, s.log).known || k in s.m.WritesOf(r.snap.txid)
  {
    hide ValidLog, Meaning, Tidy;
    assert SnapInv(s.m, r) && ReadsView(s.m, r, k);
    if k !in s.m.WritesOf(r.snap.txid) {
      PickVisible(s.m.ChainOf(k), r.snap, s.m.txns.status, Lookup(r.view, k));
    }
  }

  lemma WriteShape<R>(m: State<R>, a: Action<R>)
    requires Mvcc.Inv(m) && Enabled(m, a) && RecordOf(a).Some?
    ensures var v := if a.Insert? then Some(a.row) else if a.Update? then Some(a.row) else None;
      && Next(m, a).writes == m.writes[a.r.snap.txid := m.WritesOf(a.r.snap.txid)[a.k := v]]
      && Next(m, a).owner == m.owner && Next(m, a).db == m.db
      && Next(m, a).txns == m.txns && Next(m, a).snaps == m.snaps
    ensures a.k in m.owner && m.owner[a.k] == a.r.snap.txid
  {
  }

  /** `s'` is `s` after one logged write of `v` to `k` by `t`. */
  ghost predicate Wrote<R>(s: Sys<R>, s': Sys<R>, t: TxId, k: Key, v: Option<R>) {
    && s'.started == s.started && s'.committing == s.committing && s'.acked == s.acked
    && s'.OnDisk() == s.OnDisk() && t in s.started && t !in s.committing
    && s'.m.writes == s.m.writes[t := s.m.WritesOf(t)[k := v]]
    && s'.m.owner == s.m.owner && s'.m.db == s.m.db && s'.m.txns == s.m.txns && s'.m.snaps == s.m.snaps
    && k in s.m.owner && s.m.owner[k] == t
    && Meaning(s'.rows, s'.log) == Meaning(s.rows, s.log).Put(t, k, v)
  }

  lemma WriteKnown<R>(s: Sys<R>, s': Sys<R>, t: TxId, k: Key, v: Option<R>)
    requires Wrote(s, s', t, k, v) && KeysKnown(s)
    ensures KeysKnown(s')
  {
    assert forall u :: u != t ==> s'.m.WritesOf(u) == s.m.WritesOf(u);
  }

  lemma WriteTxn<R>(s: Sys<R>, s': Sys<R>, t: TxId, k: Key, v: Option<R>, u: TxId)
    requires Wrote(s, s', t, k, v) && TxnLogged(s, u) && TxnLogged(s, t) && Mvcc.Inv(s.m)
    ensures TxnLogged(s', u)
  {
  }

  lemma WriteKey<R>(s: Sys<R>, s': Sys<R>, t: TxId, k: Key, v: Option<R>, k': Key)
    requires Wrote(s, s', t, k, v) && KeyLogged(s, k') && TxnLogged(s, t)
    ensures KeyLogged(s', k')
  {
    if k' == k {
      assert s'.m.PendingOf(k) == Writer(t, v);
    } else {
      assert s'.m.PendingOf(k') == s.m.PendingOf(k');
    }
  }

  lemma WriteIsWrote<R>(s: Sys<R>, a: Action<R>)
    requires SysInv(s) && SysEnabled(s, Inner(a)) && RecordOf(a).Some?
    ensures var s' := SysNext(s, Inner(a));
      && Wrote(s, s', a.r.snap.txid, a.k, if a.Delete? then None else Some(a.row))
      && ValidLog(s'.rows, s'.log) && Tidy(s'.rows, s'.log) && s'.durable <= |s'.log|
  {
    hide ValidLog, KeyLogged, Next, Meaning;
    var e := Logged(RecordOf(a).value);
    DataEntryOk(s, a);
    MeaningSnoc(s.rows, s.log, e);
    DurablePrefix(s, e);
    WriteShape(s.m, a);
  }

  lemma WriteStep<R>(s: Sys<R>, a: Action<R>)
    requires SysInv(s) && SysEnabled(s, Inner(a)) && RecordOf(a).Some?
    ensures SysInv(SysNext(s, Inner(a)))
  {
    hide ValidLog, KeyLogged, TxnLogged, Next, Wrote;
    var s' := SysNext(s, Inner(a));
    var v := if a.Delete? then None else Some(a.row);
    StepInv(s.m, a);
    WriteIsWrote(s, a);
    WriteKnown(s, s', a.r.snap.txid, a.k, v);
    assert TxnLogged(s, a.r.snap.txid);
    forall u ensures TxnLogged(s', u) {
      assert TxnLogged(s, u);
      WriteTxn(s, s', a.r.snap.txid, a.k, v, u);
    }
    forall k ensures KeyLogged(s', k) {
      assert KeyLogged(s, k);
      WriteKey(s, s', a.r.snap.txid, a.k, v, k);
    }
  }

  /** Steps that change no row and finish no transaction. */
  ghost predicate Quiet<R>(m: State<R>, m': State<R>) {
    && m'.db == m.db && m'.writes == m.writes && m.txns.next <= m'.txns.next
    && (forall k :: m'.PendingOf(k) == m.PendingOf(k))
    && (forall t :: t in m.txns.status ==> t in m'.txns.status && m'.txns.status[t] == m.txns.status[t])
    && (forall t :: t in m'.txns.status && t !in m.txns.status ==> t >= m.txns.next)
    && (forall r :: r in m'.snaps ==> r in m.snaps || r.view == m.db)
  }

  lemma QuietStep<R>(m: State<R>, a: Action<R>)
    requires Mvcc.Inv(m) && Enabled(m, a) && RecordOf(a) == None && !a.Commit? && !a.Abort?
    ensures Quiet(m, Next(m, a))
  {
    var m' := Next(m, a);
    assert a.Release? && a.t in m.writes ==> WritesOk(m, a.t);
    forall k ensures m'.PendingOf(k) == m.PendingOf(k) {
      OneWriter(m, k);
      assert a.Lock? ==> m'.WritesOf(a.t) == m.WritesOf(a.t);
    }
  }

  lemma QuietKnown<R>(s: Sys<R>, s': Sys<R>)
    requires KeysKnown(s) && Quiet(s.m, s'.m) && s' == s.(m := s'.m)
    ensures KeysKnown(s')
  {
    assert forall t :: s'.m.WritesOf(t) == s.m.WritesOf(t);
  }

  lemma QuietInv<R>(s: Sys<R>, a: Action<R>)
    requires SysInv(s) && SysEnabled(s, Inner(a)) && RecordOf(a) == None
    ensures SysInv(SysNext(s, Inner(a)))
  {
    var s' := SysNext(s, Inner(a));
    StepInv(s.m, a);
    QuietStep(s.m, a);
    QuietKnown(s, s');
    forall t ensures TxnLogged(s', t) {
      assert TxnLogged(s, t);
    }
    forall k ensures KeyLogged(s', k) {
      assert KeyLogged(s, k);
    }
  }

  lemma LogBeginInv<R>(s: Sys<R>, t: TxId)
    requires SysInv(s) && SysEnabled(s, LogBegin(t))
    ensures SysInv(SysNext<R>(s, LogBegin(t)))
  {
    var s' := SysNext<R>(s, LogBegin(t));
    assert TxnLogged(s, t);
    MeaningSnoc(s.rows, s.log, Logged(BeginRec(t)));
    DurablePrefix(s, Logged(BeginRec(t)));
    forall u ensures TxnLogged(s', u) {
      assert TxnLogged(s, u);
    }
    forall k ensures KeyLogged(s', k) {
      assert KeyLogged(s, k);
    }
  }

  lemma LogCommitTxn<R>(s: Sys<R>, t: TxId, u: TxId)
    requires SysInv(s) && SysEnabled(s, LogCommit(t))
    ensures TxnLogged(SysNext<R>(s, LogCommit(t)), u)
  {
    hide ValidLog, KeyLogged, KeysKnown, Mvcc.Inv, Tidy;
    MeaningSnoc(s.rows, s.log, Logged(CommitRec(t)));
    DurablePrefix(s, Logged(CommitRec(t)));
    assert TxnLogged(s, u) && TxnLogged(s, t);
  }

  lemma LogCommitKey<R>(s: Sys<R>, t: TxId, k: Key)
    requires SysInv(s) && SysEnabled(s, LogCommit(t))
    ensures KeyLogged(SysNext<R>(s, LogCommit(t)), k)
  {
    MeaningSnoc(s.rows, s.log, Logged(CommitRec(t)));
    assert TxnLogged(s, t) && KeyLogged(s, k);
    PendingWrites(s.m, k, t);
    hide ValidLog, Mvcc.Inv, TxnLogged, Meaning, State.PendingOf, State.WritesOf;
  }

  lemma PendingWrites<R>(m: State<R>, k: Key, t: TxId)
    requires Mvcc.Inv(m)
    ensures m.PendingOf(k).Writer? && m.PendingOf(k).t == t <==> k in m.WritesOf(t)
    ensures k in m.WritesOf(t) ==> m.PendingOf(k).value == m.WritesOf(t)[k]
  {
    OneWriter(m, k);
  }

  lemma LogCommitInv<R>(s: Sys<R>, t: TxId)
    requires SysInv(s) && SysEnabled(s, LogCommit(t))
    ensures SysInv(SysNext<R>(s, LogCommit(t)))
  {
    assert TxnLogged(s, t);
    MeaningSnoc(s.rows, s.log, Logged(CommitRec(t)));
    DurablePrefix(s, Logged(CommitRec(t)));
    var s' := SysNext<R>(s, LogCommit(t));
    forall u ensures TxnLogged(s', u) {
      LogCommitTxn(s, t, u);
    }
    forall k ensures KeyLogged(s', k) {
      LogCommitKey(s, t, k);
    }
    hide TxnLogged, KeyLogged, Mvcc.Inv;
  }

  lemma SyncInv<R>(s: Sys<R>, n: nat)
    requires SysInv(s) && SysEnabled(s, Sync(n))
    ensures SysInv(SysNext<R>(s, Sync(n)))
  {
    var s' := SysNext<R>(s, Sync(n));
    assert s.OnDisk() <= s'.OnDisk();
    forall t ensures TxnLogged(s', t) {
      assert TxnLogged(s, t);
    }
    forall k ensures KeyLogged(s', k) {
      assert KeyLogged(s, k);
    }
  }

  lemma PublishKnown<R>(s: Sys<R>, t: TxId)
    requires SysInv(s) && SysEnabled(s, Publish(t))
    ensures KeysKnown(SysNext<R>(s, Publish(t)))
  {
    hide ValidLog, Meaning, Mvcc.Inv, Tidy;
    var s' := SysNext<R>(s, Publish(t));
    assert TxnLogged(s, t);
    var l := Meaning(s.rows, s.log);
    forall k | k in s'.m.db ensures k in l.known {
      CommitView(s.m, t, k);
      assert k in s.m.db || k in s.m.WritesOf(t);
    }
    forall u, k | u in s'.committing && k in s'.m.WritesOf(u) ensures k in l.known {
      FinishShape(s.m, t, Committed, u);
    }
    forall r, k | r in s'.m.snaps && k in r.view ensures k in l.known {
      assert r in s.m.snaps;
    }
  }

  /** Publishing catches memory up with the log. */
  lemma PublishInv<R>(s: Sys<R>, t: TxId)
    requires SysInv(s) && SysEnabled(s, Publish(t))
    ensures SysInv(SysNext<R>(s, Publish(t)))
  {
    hide ValidLog, Meaning;
    var s' := SysNext<R>(s, Publish(t));
    StepInv(s.m, Commit(t));
    assert TxnLogged(s, t);
    forall u ensures TxnLogged(s', u) {
      assert TxnLogged(s, u);
      FinishShape(s.m, t, Committed, u);
    }
    forall k ensures KeyLogged(s', k) {
      PublishKey(s, t, k);
    }
    PublishKnown(s, t);
  }

  lemma PublishKey<R>(s: Sys<R>, t: TxId, k: Key)
    requires SysInv(s) && SysEnabled(s, Publish(t))
    ensures KeyLogged(SysNext<R>(s, Publish(t)), k)
  {
    assert KeyLogged(s, k) && TxnLogged(s, t);
    FinishedKey(s.m, t, Committed, k);
    CommitView(s.m, t, k);
    assert SysNext<R>(s, Publish(t)).m.PendingOf(k) == Finished(s.m, t, Committed).PendingOf(k);
    hide ValidLog, Meaning, Mvcc.Inv, TxnLogged, Finished, Next, Merge, State.PendingOf, State.WritesOf;
  }

  lemma CancelKnown<R>(s: Sys<R>, t: TxId)
    requires SysInv(s) && SysEnabled(s, Cancel(t))
    ensures KeysKnown(SysNext<R>(s, Cancel(t)))
  {
    hide ValidLog, Meaning, Mvcc.Inv, Tidy;
    var s' := SysNext<R>(s, Cancel(t));
    MeaningSnoc(s.rows, s.log, Logged(AbortRec(t)));
    var l := Meaning(s.rows, s.log);
    FinishShape(s.m, t, Aborted, t);
    forall u, k | u in s'.committing && k in s'.m.WritesOf(u) ensures k in l.known {
      FinishShape(s.m, t, Aborted, u);
    }
    forall r, k | r in s'.m.snaps && k in r.view ensures k in l.known {
      assert r in s.m.snaps;
    }
  }

  lemma CancelInv<R>(s: Sys<R>, t: TxId)
    requires SysInv(s) && SysEnabled(s, Cancel(t))
    ensures SysInv(SysNext<R>(s, Cancel(t)))
  {
    var s' := SysNext<R>(s, Cancel(t));
    StepInv(s.m, Abort(t));
    assert TxnLogged(s, t);
    MeaningSnoc(s.rows, s.log, Logged(AbortRec(t)));
    CancelKnown(s, t);
    hide Mvcc.Inv, Meaning, Tidy, TxnLogged, KeyLogged, KeysKnown, Finished, Next;
    forall u ensures TxnLogged(s', u) {
      CancelTxn(s, t, u);
    }
    forall k ensures KeyLogged(s', k) {
      CancelKey(s, t, k);
    }
  }

  lemma FinishShape<R>(m: State<R>, t: TxId, outcome: Status, u: TxId)
    requires m.Running(t) && outcome != Active
    ensures Finished(m, t, outcome).txns.next == m.txns.next && Finished(m, t, outcome).db == m.db
    ensures Finished(m, t, outcome).Running(u) <==> m.Running(u) && u != t
    ensures Finished(m, t, outcome).WritesOf(u) == if u == t then map[] else m.WritesOf(u)
  {
  }

  lemma CancelTxn<R>(s: Sys<R>, t: TxId, u: TxId)
    requires SysInv(s) && SysEnabled(s, Cancel(t))
    ensures TxnLogged(SysNext<R>(s, Cancel(t)), u)
  {
    hide ValidLog, KeyLogged, KeysKnown, Finished, Meaning, Mvcc.Inv, Tidy;
    assert TxnLogged(s, t) && TxnLogged(s, u);
    MeaningSnoc(s.rows, s.log, Logged(AbortRec(t)));
    FinishShape(s.m, t, Aborted, u);
    if t in s.started {
      DurablePrefix(s, Logged(AbortRec(t)));
    }
  }

  lemma CancelKey<R>(s: Sys<R>, t: TxId, k: Key)
    requires SysInv(s) && SysEnabled(s, Cancel(t))
    ensures KeyLogged(SysNext<R>(s, Cancel(t)), k)
  {
    hide ValidLog, Finished, Meaning, TxnLogged;
    assert KeyLogged(s, k);
    MeaningSnoc(s.rows, s.log, Logged(AbortRec(t)));
    FinishShape(s.m, t, Aborted, t);
    FinishedKey(s.m, t, Aborted, k);
  }

  // -----------------------------------------------------------------
  // Crashes
  // -----------------------------------------------------------------

  /** Durability and atomicity.  Wherever behind the synced part of the log the
      crash strikes, recovery succeeds and leaves, as committed rows, the write
      sets of exactly the transactions whose commit record survived, applied in
      commit order; every acknowledged commit is among them. */
  lemma CrashKeepsExactlyCommitted<R>(s: Sys<R>, n: nat)
    requires SysInv(s) && s.durable <= n <= |s.log|
    ensures ValidLog(s.rows, s.log[..n])
    ensures var m := Recovered(s.rows, s.log[..n]);
      && Mvcc.Inv(m)
      && m.db == Meaning(s.rows, s.log[..n]).db
      && (forall t :: t in s.acked ==> CommittedIn(Physical(s.log[..n]), t))
  {
    ValidPrefix(s.rows, s.log, n);
    TidyPrefix(s.rows, s.log, n);
    TidyIsClean(s.rows, s.log[..n], CommittedSet(s.log[..n]));
    RecoveredInvExactly(s.rows, s.log[..n]);
    forall t | t in s.acked ensures CommittedIn(Physical(s.log[..n]), t) {
      assert TxnLogged(s, t);
      var i :| 0 <= i < s.durable && s.log[..s.durable][i] == Logged(CommitRec(t));
      assert s.log[..n][i] == Logged(CommitRec(t));
      CommitCounts(s.rows, s.log[..n], i, t);
    }
  }

  lemma {:induction false} KnownHasDb<R>(rows: map<Key, R>, log: seq<Entry<R>>)
    ensures Meaning(rows, log).db.Keys <= Meaning(rows, log).known
    decreases |log|
  {
    if log != [] { KnownHasDb(rows, log[..|log| - 1]); }
  }

  lemma CrashKnown<R>(s: Sys<R>, n: nat)
    requires s.durable <= n <= |s.log| && ValidLog(s.rows, s.log[..n])
    ensures KeysKnown(SysNext<R>(s, CrashAt(n)))
  {
    MeaningSnoc(s.rows, s.log[..n], Crash);
    KnownHasDb(s.rows, s.log[..n]);
  }

  lemma CrashInv<R>(s: Sys<R>, n: nat)
    requires SysInv(s) && SysEnabled(s, CrashAt(n))
    ensures ValidLog(s.rows, s.log[..n]) && SysInv(SysNext<R>(s, CrashAt(n)))
  {
    CrashKeepsExactlyCommitted(s, n);
    var s' := SysNext<R>(s, CrashAt(n));
    TidyPrefix(s.rows, s.log, n);
    MeaningSnoc(s.rows, s.log[..n], Crash);
    CrashKnown(s, n);
    hide Mvcc.Inv, Meaning, Tidy, TxnLogged, KeysKnown;
    forall t ensures TxnLogged(s', t) {
      CrashTxn(s, n, t);
    }
    forall k ensures KeyLogged(s', k) {
    }
  }

  lemma CrashTxn<R>(s: Sys<R>, n: nat, t: TxId)
    requires SysInv(s) && SysEnabled(s, CrashAt(n)) && ValidLog(s.rows, s.log[..n])
    ensures TxnLogged(SysNext<R>(s, CrashAt(n)), t)
  {
    hide ValidLog, Mvcc.Inv, Meaning, KeyLogged, Recovered;
    var log := s.log[..n];
    MeaningSnoc(s.rows, log, Crash);
    RecoveredShape(s.rows, log, t);
    assert t in s.acked ==> TxnLogged(s, t);
    StillOnDisk(s, n, CommitRec(t));
  }

  lemma RecoveredShape<R>(rows: map<Key, R>, log: seq<Entry<R>>, t: TxId)
    requires ValidLog(rows, log)
    ensures var m := Recovered(rows, log);
      !m.Running(t) && m.WritesOf(t) == map[] && m.txns.next == MaxId(CommittedSet(log)) + 1
  {
  }

  lemma StillOnDisk<R>(s: Sys<R>, n: nat, r: Record<R>)
    requires s.durable <= n <= |s.log|
    ensures Logged(r) in s.OnDisk() ==> Logged(r) in s.log[..n] + [Crash]
  {
    if Logged(r) in s.OnDisk() {
      var i :| 0 <= i < s.durable && s.OnDisk()[i] == Logged(r);
      assert (s.log[..n] + [Crash])[i] == Logged(r);
    }
  }

  lemma SysStepInv<R>(s: Sys<R>, a: SysAction<R>)
    requires SysInv(s) && SysEnabled(s, a)
    ensures a.CrashAt? ==> ValidLog(s.rows, s.log[..a.n])
    ensures SysInv(SysNext(s, a))
  {
    match a
    case Inner(b) => if RecordOf(b).Some? { WriteStep(s, b); } else { QuietInv(s, b); }
    case LogBegin(t) => LogBeginInv(s, t);
    case LogCommit(t) => LogCommitInv(s, t);
    case Sync(n) => SyncInv(s, n);
    case Publish(t) => PublishInv(s, t);
    case Cancel(t) => CancelInv(s, t);
    case CrashAt(n) => CrashInv(s, n);
    case Checkpoint(layout) => OpenedInv(Payload(AfterGc(s.m, SkippedIn(s.m, layout))));
  }

  /** A checkpoint, the emptied log and a restart keep the committed rows. */
  lemma CheckpointKeepsRows<R>(s: Sys<R>, layout: seq<seq<Key>>)
    requires SysInv(s) && SysEnabled(s, Checkpoint(layout))
    ensures SysNext<R>(s, Checkpoint(layout)).m.db == s.m.db
    ensures SysNext<R>(s, Checkpoint(layout)).rows == s.m.db
  {
    CheckpointExactly(s.m, layout);
  }

  /** The state after the actions, or None if one of them was not enabled. */
  ghost function SysExec<R>(s: Sys<R>, acts: seq<SysAction<R>>): Option<Sys<R>>
    decreases |acts|
  {
    if acts == [] then Some(s)
    else
      match SysExec(s, acts[..|acts| - 1])
      case None => None
      case Some(m) =>
        var a := acts[|acts| - 1];
        if SysEnabled(m, a) && (a.CrashAt? ==> ValidLog(m.rows, m.log[..a.n])) then Some(SysNext(m, a)) else None
  }

  /** Over all runs, with any number of crashes and checkpoints in them. */
  lemma {:induction false} EveryRun<R>(rows: map<Key, R>, acts: seq<SysAction<R>>)
    requires SysExec(Opened(rows), acts).Some?
    ensures SysInv(SysExec(Opened(rows), acts).value)
    decreases |acts|
  {
    if acts == [] {
      OpenedInv(rows);
    } else {
      EveryRun(rows, acts[..|acts| - 1]);
      SysStepInv(SysExec(Opened(rows), acts[..|acts| - 1]).value, acts[|acts| - 1]);
    }
  }

  /** No step of a run gets stuck on its log: whatever the file holds behind the
      synced part, recovery can replay it. */
  lemma RecoveryNeverStuck<R>(rows: map<Key, R>, acts: seq<SysAction<R>>, n: nat)
    requires SysExec(Opened(rows), acts).Some?
    requires var s := SysExec(Opened(rows), acts).value; s.durable <= n <= |s.log|
    ensures var s := SysExec(Opened(rows), acts).value;
      && ValidLog(s.rows, s.log[..n])
      && Replay(Checkpointed(s.rows), Kept(Physical(s.log[..n]), CommittedSet(s.log[..n]))).Some?
  {
    EveryRun(rows, acts);
    var s := SysExec(Opened(rows), acts).value;
    ValidPrefix(s.rows, s.log, n);
    ReplayEnds(s.rows, s.log[..n], CommittedSet(s.log[..n]));
  }
}
