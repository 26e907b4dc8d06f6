/** One version chain under row locking: which states it can be in, what every
    table operation, commit, abort and collection keep, and what snapshots read
    from it.  The state machine in Mvcc.dfy lifts these facts to all keys. */
module Chains {
  import opened Basics
  import opened Versions

  /** The active transaction that has written the key, with the value it will
      leave there (None: deleted). */
  datatype Pending<R> = NoWriter | Writer(t: TxId, value: Option<R>)

  /** Visible to a reader that takes exactly the committed transactions. */
  predicate Live<R>(v: Version<R>, st: StatusMap) {
    && (v.xmin == 0 || IsCommitted(st, v.xmin))
    && !(v.xmax != 0 && IsCommitted(st, v.xmax))
  }

  predicate IsActive(st: StatusMap, id: TxId) {
    id in st && st[id] == Active
  }

  predicate IdsOk<R>(v: Version<R>, st: StatusMap) {
    (v.xmin == 0 || v.xmin in st) && (v.xmax == 0 || v.xmax in st)
  }

  ghost predicate OnlyWriter<R>(v: Version<R>, st: StatusMap, p: Pending<R>) {
    && (IsActive(st, v.xmin) ==> p.Writer? && p.t == v.xmin)
    && (IsActive(st, v.xmax) ==> p.Writer? && p.t == v.xmax)
  }

  /** What may stand behind the live version: leftovers of aborted transactions
      and the version of the current writer. */
  ghost predicate Superseding<R>(v: Version<R>, st: StatusMap, p: Pending<R>) {
    IsAborted(st, v.xmin) || (p.Writer? && v.xmin == p.t)
  }

  /** `base` is the committed value of the key. */
  ghost predicate ChainInv<R>(c: Chain<R>, st: StatusMap, base: Option<R>, p: Pending<R>) {
    && 0 !in st
    && (forall i :: 0 <= i < |c| ==> IdsOk(c[i], st) && OnlyWriter(c[i], st, p))
    && (forall i, j :: 0 <= i < j < |c| && Live(c[i], st) ==> Superseding(c[j], st, p))
    && (forall i :: 0 <= i < |c| && Live(c[i], st) ==> base == Some(c[i].row))
    && (base.Some? ==> exists i :: 0 <= i < |c| && Live(c[i], st))
    && (p.Writer? ==>
          && IsActive(st, p.t)
          && (forall i :: 0 <= i < |c| && Live(c[i], st) ==> c[i].xmax == p.t)
          && (forall i :: 0 <= i < |c| && c[i].xmin == p.t ==>
                i == |c| - 1 && c[i].xmax == 0 && p.value == Some(c[i].row))
          && (p.value.Some? ==> c != [] && c[|c| - 1].xmin == p.t))
  }

  /** What the transaction `t` should read: its own write, else the committed value. */
  function Own<R>(base: Option<R>, p: Pending<R>, t: TxId): Option<R> {
    if p.Writer? && p.t == t then p.value else base
  }

  /** `s` sees at most one version, and it is `value`. */
  ghost predicate VisibleIs<R>(c: Chain<R>, s: Snapshot, st: StatusMap, value: Option<R>) {
    && (forall i, j :: 0 <= i < j < |c| ==> !(s.Sees(c[i], st) && s.Sees(c[j], st)))
    && (forall i :: 0 <= i < |c| && s.Sees(c[i], st) ==> value == Some(c[i].row))
    && (value.Some? ==> exists i :: 0 <= i < |c| && s.Sees(c[i], st))
  }

  lemma PickVisible<R>(c: Chain<R>, s: Snapshot, st: StatusMap, value: Option<R>)
    requires VisibleIs(c, s, st, value)
    ensures RowSeen(c, s, st) == value
  {
    PickMeaning(c, s, st);
  }

  /** The snapshot belongs to an active transaction and has seen a final state
      for every id it does not list as active. */
  ghost predicate Frozen(s: Snapshot, st: StatusMap) {
    && 0 !in st
    && IsActive(st, s.txid) && s.txid < s.takenAt
    && forall id :: id in st && id < s.takenAt && id !in s.active ==> st[id] != Active
  }

  /** Every commit recorded in the chain, other than its own, shows in `s`. */
  ghost predicate UpToDate<R>(c: Chain<R>, s: Snapshot, st: StatusMap) {
    forall i :: 0 <= i < |c| ==> Shows(c[i].xmin, s, st) && Shows(c[i].xmax, s, st)
  }

  predicate Shows(id: TxId, s: Snapshot, st: StatusMap) {
    id == s.txid || !IsCommitted(st, id) || (id < s.takenAt && id !in s.active)
  }

  /** Reading: an up-to-date snapshot of `t` reads t's own write or the committed value. */
  lemma ReadUpToDate<R>(c: Chain<R>, st: StatusMap, base: Option<R>, p: Pending<R>, s: Snapshot)
    requires ChainInv(c, st, base, p) && Frozen(s, st) && UpToDate(c, s, st)
    ensures VisibleIs(c, s, st, Own(base, p, s.txid))
  {
    if p.Writer? && p.t == s.txid {
      forall i | 0 <= i < |c| ensures s.Sees(c[i], st) <==> c[i].xmin == s.txid {
        assert Live(c[i], st) ==> c[i].xmax == s.txid;
      }
    } else {
      forall i | 0 <= i < |c| ensures s.Sees(c[i], st) <==> Live(c[i], st) {
        assert OnlyWriter(c[i], st, p);
      }
    }
  }

  // -----------------------------------------------------------------
  // Writes
  // -----------------------------------------------------------------

  /** The version at the end of the chain, the one that gets marked, is the only one
      that can be live. */
  predicate LiveIsLast<R>(c: Chain<R>, st: StatusMap) {
    forall i :: 0 <= i < |c| - 1 ==> !Live(c[i], st)
  }

  /** Created by a committed transaction and deleted by one. */
  predicate Ended<R>(v: Version<R>, st: StatusMap) {
    (v.xmin == 0 || IsCommitted(st, v.xmin)) && v.xmax != 0 && IsCommitted(st, v.xmax)
  }

  /** No version before the last stays live beneath a write by `t`. */
  predicate LeavesNone<R>(c: Chain<R>, st: StatusMap, t: TxId) {
    forall i :: 0 <= i < |c| - 1 && Live(c[i], st) ==> c[i].xmax == t
  }

  // The guards below look at the chain alone: what a caller that holds the row lock
  // could check just before it writes.

  predicate InsertFits<R>(c: Chain<R>, st: StatusMap, t: TxId) {
    OwnIndex(c, t).None? && forall i :: 0 <= i < |c| && Live(c[i], st) ==> c[i].xmax == t
  }

  predicate UpdateFits<R>(c: Chain<R>, st: StatusMap, t: TxId) {
    OwnIndex(c, t).Some? || (c != [] && LeavesNone(c, st, t) && !Ended(c[|c| - 1], st))
  }

  predicate DeleteFits<R>(c: Chain<R>, st: StatusMap, t: TxId) {
    || OwnIndex(c, t).Some?
    || (c != [] && LeavesNone(c, st, t)
        && (c[|c| - 1].xmax != 0 && Live(c[|c| - 1], st) ==> c[|c| - 1].xmax == t))
  }

  /** Under the row lock of `t` only `t` has unfinished business in the chain. */
  lemma HolderFacts<R>(c: Chain<R>, st: StatusMap, base: Option<R>, p: Pending<R>, t: TxId)
    requires ChainInv(c, st, base, p) && IsActive(st, t) && (p.Writer? ==> p.t == t)
    ensures OwnIndex(c, t).Some? <==> p.Writer? && p.value.Some?
    ensures OwnIndex(c, t).Some? ==> OwnIndex(c, t).value == |c| - 1
    ensures OwnIndex(c, t).None? ==> forall i :: 0 <= i < |c| ==> c[i].xmin != t
    ensures p == NoWriter ==> forall i :: 0 <= i < |c| ==> c[i].xmax != t
    ensures InsertFits(c, st, t) <==> Own(base, p, t) == None
  {
    forall i | 0 <= i < |c| ensures OnlyWriter(c[i], st, p) && (c[i].xmin == t ==> c[i].xmax == 0) {
    }
    if p == NoWriter && base.Some? {
      var i :| 0 <= i < |c| && Live(c[i], st);
      assert c[i].xmax != t;
    }
  }

  lemma InsertKeeps<R>(c: Chain<R>, st: StatusMap, base: Option<R>, p: Pending<R>, t: TxId, row: R)
    requires ChainInv(c, st, base, p) && IsActive(st, t) && (p.Writer? ==> p.t == t)
    requires Own(base, p, t) == None
    ensures ChainInv(InsertChain(c, t, row), st, base, Writer(t, Some(row)))
  {
    var d := InsertChain(c, t, row);
    forall i | 0 <= i < |c| ensures d[i] == c[i] && OnlyWriter(c[i], st, p) {
    }
    assert d[|c|].xmin == t && !Live(d[|c|], st);
    if base.Some? {
      var i :| 0 <= i < |c| && Live(c[i], st);
      assert Live(d[i], st);
    }
  }

  /** An insert decided on any snapshot keeps the chain in order exactly if nothing is
      there: neither a live version nor an unfinished row of its own. */
  lemma InsertKeepsExactly<R>(c: Chain<R>, st: StatusMap, base: Option<R>, p: Pending<R>, t: TxId, row: R)
    requires ChainInv(c, st, base, p) && IsActive(st, t) && (p.Writer? ==> p.t == t)
    ensures ChainInv(InsertChain(c, t, row), st, base, Writer(t, Some(row))) <==> InsertFits(c, st, t)
  {
    HolderFacts(c, st, base, p, t);
    var d := InsertChain(c, t, row);
    assert forall i :: 0 <= i < |c| ==> d[i] == c[i];
    if InsertFits(c, st, t) {
      InsertKeeps(c, st, base, p, t, row);
    } else if OwnIndex(c, t).Some? {
      assert d[|c| - 1].xmin == t && |c| - 1 != |d| - 1;
    } else {
      var i :| 0 <= i < |c| && Live(c[i], st) && c[i].xmax != t;
      assert Live(d[i], st) && d[i].xmax != t;
    }
  }

  lemma UpdateKeeps<R>(c: Chain<R>, st: StatusMap, base: Option<R>, p: Pending<R>, t: TxId, row: R)
    requires ChainInv(c, st, base, p) && IsActive(st, t) && (p.Writer? ==> p.t == t)
    requires c != [] && UpdateFits(c, st, t)
    ensures ChainInv(UpdateChain(c, t, row), st, base, Writer(t, Some(row)))
  {
    match OwnIndex(c, t)
    case Some(i) =>
      OwnUpdateKeeps(c, st, base, p, t, row, i);
    case None =>
      MarkKeeps(c, st, base, p, t);
      InsertKeeps(MarkLast(c, t), st, base, Writer(t, None), t, row);
  }

  /** An update keeps the chain in order exactly if the version it marks is not one
      deleted for good, and no other is live. */
  lemma UpdateKeepsExactly<R>(c: Chain<R>, st: StatusMap, base: Option<R>, p: Pending<R>, t: TxId, row: R)
    requires ChainInv(c, st, base, p) && IsActive(st, t) && (p.Writer? ==> p.t == t) && c != []
    ensures ChainInv(UpdateChain(c, t, row), st, base, Writer(t, Some(row))) <==> UpdateFits(c, st, t)
  {
    var d, last := UpdateChain(c, t, row), |c| - 1;
    if UpdateFits(c, st, t) {
      UpdateKeeps(c, st, base, p, t, row);
    } else if !LeavesNone(c, st, t) {
      var i :| 0 <= i < last && Live(c[i], st) && c[i].xmax != t;
      assert d[i] == c[i];
    } else {
      EndedReopens(c, st, base, p, t);
      assert d[last] == MarkLast(c, t)[last];
    }
  }

  /** Marking a version deleted for good takes the deletion back. */
  lemma EndedReopens<R>(c: Chain<R>, st: StatusMap, base: Option<R>, p: Pending<R>, t: TxId)
    requires ChainInv(c, st, base, p) && IsActive(st, t)
    requires c != [] && Ended(c[|c| - 1], st)
    ensures base == None && Live(MarkLast(c, t)[|c| - 1], st)
  {
    assert forall i :: 0 <= i < |c| ==> !Live(c[i], st);
  }

  lemma OwnUpdateKeeps<R>(c: Chain<R>, st: StatusMap, base: Option<R>, p: Pending<R>, t: TxId, row: R, i: nat)
    requires ChainInv(c, st, base, p) && IsActive(st, t) && (p.Writer? ==> p.t == t)
    requires i < |c| && c[i].xmin == t && c[i].xmax == 0
    ensures ChainInv(c[i := c[i].(row := row)], st, base, Writer(t, Some(row)))
  {
    assert OnlyWriter(c[i], st, p) && i == |c| - 1;
    var d := c[i := c[i].(row := row)];
    assert forall j :: 0 <= j < i ==> d[j] == c[j];
    assert forall j :: 0 <= j < |c| ==> (Live(d[j], st) <==> Live(c[j], st));
  }

  /** Marking the last version turns the write into a delete. */
  lemma MarkKeeps<R>(c: Chain<R>, st: StatusMap, base: Option<R>, p: Pending<R>, t: TxId)
    requires ChainInv(c, st, base, p) && IsActive(st, t) && (p.Writer? ==> p.t == t)
    requires c != [] && OwnIndex(c, t) == None && LeavesNone(c, st, t) && !Ended(c[|c| - 1], st)
    ensures ChainInv(MarkLast(c, t), st, base, Writer(t, None))
  {
    HolderFacts(c, st, base, p, t);
    var d, last := MarkLast(c, t), |c| - 1;
    assert forall i :: 0 <= i < last ==> d[i] == c[i];
    assert OnlyWriter(c[last], st, p);
    assert Live(d[last], st) <==> Live(c[last], st);
    forall i | 0 <= i < |c| ensures OnlyWriter(d[i], st, Writer(t, None)) && (Live(d[i], st) <==> Live(c[i], st)) {
      assert OnlyWriter(c[i], st, p);
    }
    if base.Some? {
      var i :| 0 <= i < |c| && Live(c[i], st);
      assert Live(d[i], st);
    }
  }

  lemma DeleteKeeps<R>(c: Chain<R>, st: StatusMap, base: Option<R>, p: Pending<R>, t: TxId)
    requires ChainInv(c, st, base, p) && IsActive(st, t) && (p.Writer? ==> p.t == t)
    requires c != [] && DeleteFits(c, st, t)
    ensures ChainInv(DeleteChain(c, t).0, st, base, Writer(t, None))
  {
    HolderFacts(c, st, base, p, t);
    match OwnIndex(c, t)
    case Some(i) =>
      DropOwnKeeps(c, st, base, p, t);
      assert c[..i] + c[i + 1..] == c[..|c| - 1];
    case None =>
      if c[|c| - 1].xmax == 0 {
        MarkKeeps(c, st, base, p, t);
      }
  }

  lemma DropOwnKeeps<R>(c: Chain<R>, st: StatusMap, base: Option<R>, p: Pending<R>, t: TxId)
    requires ChainInv(c, st, base, p) && IsActive(st, t) && (p.Writer? ==> p.t == t)
    requires c != [] && c[|c| - 1].xmin == t && c[|c| - 1].xmax == 0
    ensures ChainInv(c[..|c| - 1], st, base, Writer(t, None))
  {
    var d := c[..|c| - 1];
    assert OnlyWriter(c[|c| - 1], st, p) && !Live(c[|c| - 1], st);
    assert forall j :: 0 <= j < |d| ==> d[j] == c[j];
    if base.Some? {
      var j :| 0 <= j < |c| && Live(c[j], st);
      assert Live(d[j], st);
    }
  }

  /** A delete keeps the chain in order exactly if it leaves no version live but such
      as it has marked. */
  lemma DeleteKeepsExactly<R>(c: Chain<R>, st: StatusMap, base: Option<R>, p: Pending<R>, t: TxId)
    requires ChainInv(c, st, base, p) && IsActive(st, t) && (p.Writer? ==> p.t == t) && c != []
    ensures ChainInv(DeleteChain(c, t).0, st, base, Writer(t, None)) <==> DeleteFits(c, st, t)
  {
    var d, last := DeleteChain(c, t).0, |c| - 1;
    if DeleteFits(c, st, t) {
      DeleteKeeps(c, st, base, p, t);
    } else if !LeavesNone(c, st, t) {
      var i :| 0 <= i < last && Live(c[i], st) && c[i].xmax != t;
      assert d[i] == c[i];
    } else {
      assert d[last] == c[last] && Live(d[last], st);
    }
  }

  /** Where a row is found, the version to mark is the live one or an unfinished row of
      its own exactly if no live version stands before the last. */
  lemma FoundFits<R>(c: Chain<R>, st: StatusMap, base: Option<R>, p: Pending<R>, t: TxId)
    requires ChainInv(c, st, base, p) && IsActive(st, t) && (p.Writer? ==> p.t == t) && Own(base, p, t) != None
    ensures UpdateFits(c, st, t) <==> OwnIndex(c, t).Some? || LiveIsLast(c, st)
  {
    HolderFacts(c, st, base, p, t);
    if p == NoWriter {
      var i :| 0 <= i < |c| && Live(c[i], st);
      assert c[i].xmax != t;
    }
  }

  /** No other snapshot notices a write: the writer is not finished in its eyes. */
  lemma WriteHidden<R>(c: Chain<R>, st: StatusMap, base: Option<R>, p: Pending<R>, t: TxId, s: Snapshot,
                       value: Option<R>, row: R)
    requires ChainInv(c, st, base, p) && IsActive(st, t) && (p.Writer? ==> p.t == t)
    requires Frozen(s, st) && s.txid != t && VisibleIs(c, s, st, value)
    ensures VisibleIs(InsertChain(c, t, row), s, st, value)
    ensures c != [] && UpdateFits(c, st, t) ==> VisibleIs(UpdateChain(c, t, row), s, st, value)
    ensures c != [] && DeleteFits(c, st, t) ==> VisibleIs(DeleteChain(c, t).0, s, st, value)
  {
    assert Unseen(t, s, st);
    HolderFacts(c, st, base, p, t);
    AppendHidden(c, s, st, value, Version(row, t, 0));
    match OwnIndex(c, t)
    case Some(i) =>
      DropHidden(c, s, st, value);
      AppendHidden(c[..|c| - 1], s, st, value, c[|c| - 1].(row := row));
      assert c[|c| - 1 := c[|c| - 1].(row := row)] == c[..|c| - 1] + [c[|c| - 1].(row := row)];
      assert c[..i] + c[i + 1..] == c[..|c| - 1];
    case None =>
      if c != [] && !Ended(c[|c| - 1], st) {
        assert OnlyWriter(c[|c| - 1], st, p);
        MarkHidden(c, s, st, value, t);
        AppendHidden(MarkLast(c, t), s, st, value, Version(row, t, 0));
      }
  }

  predicate Unseen(t: TxId, s: Snapshot, st: StatusMap) {
    t != 0 && t != s.txid && !(t < s.takenAt && t !in s.active && IsCommitted(st, t))
  }

  lemma AppendHidden<R>(c: Chain<R>, s: Snapshot, st: StatusMap, value: Option<R>, v: Version<R>)
    requires VisibleIs(c, s, st, value) && !s.Sees(v, st)
    ensures VisibleIs(c + [v], s, st, value)
  {
    var d := c + [v];
    assert forall i :: 0 <= i < |c| ==> d[i] == c[i];
    if value.Some? {
      var i :| 0 <= i < |c| && s.Sees(c[i], st);
      assert s.Sees(d[i], st);
    }
  }

  lemma DropHidden<R>(c: Chain<R>, s: Snapshot, st: StatusMap, value: Option<R>)
    requires c != [] && VisibleIs(c, s, st, value) && !s.Sees(c[|c| - 1], st)
    ensures VisibleIs(c[..|c| - 1], s, st, value)
  {
    var d := c[..|c| - 1];
    if value.Some? {
      var i :| 0 <= i < |c| && s.Sees(c[i], st);
      assert s.Sees(d[i], st);
    }
  }

  lemma MarkHidden<R>(c: Chain<R>, s: Snapshot, st: StatusMap, value: Option<R>, t: TxId)
    requires c != [] && VisibleIs(c, s, st, value) && Unseen(t, s, st) && Frozen(s, st)
    requires var v := c[|c| - 1];
      && !Ended(v, st) && v.xmin != s.txid && v.xmax != s.txid
    ensures VisibleIs(MarkLast(c, t), s, st, value)
  {
    var d := MarkLast(c, t);
    forall i | 0 <= i < |c| ensures d[i].row == c[i].row && (s.Sees(d[i], st) <==> s.Sees(c[i], st)) {
    }
    if value.Some? {
      var i :| 0 <= i < |c| && s.Sees(c[i], st);
      assert s.Sees(d[i], st);
    }
  }

  /** A chain that no aborted transaction has touched can always be written. */
  lemma UntouchedIsWritable<R>(c: Chain<R>, st: StatusMap, base: Option<R>, p: Pending<R>, t: TxId)
    requires ChainInv(c, st, base, p) && IsActive(st, t) && (p.Writer? ==> p.t == t)
    requires Own(base, p, t) != None
    requires forall i :: 0 <= i < |c| ==> !IsAborted(st, c[i].xmin) && !IsAborted(st, c[i].xmax)
    ensures c != [] && UpdateFits(c, st, t) && DeleteFits(c, st, t)
    ensures OwnIndex(c, t) == None ==> c[|c| - 1].xmax == 0
  {
    HolderFacts(c, st, base, p, t);
    if p == NoWriter {
      var i :| 0 <= i < |c| && Live(c[i], st);
      assert !Superseding(c[|c| - 1], st, p);
      assert OnlyWriter(c[i], st, p);
    }
  }

  /** After an abort the code marks whatever stands last, not the visible version.
      A delete takes effect exactly if the live version is last and unmarked. */
  lemma DeleteTakesEffectExactly<R>(c: Chain<R>, st: StatusMap, row: R, t: TxId)
    requires ChainInv(c, st, Some(row), NoWriter) && IsActive(st, t)
    ensures c != []
    ensures (forall i :: 0 <= i < |DeleteChain(c, t).0| ==> !Live(DeleteChain(c, t).0[i], st[t := Committed]))
            <==> LiveIsLast(c, st) && c[|c| - 1].xmax == 0
  {
    var st' := st[t := Committed];
    var d := DeleteChain(c, t).0;
    var k :| 0 <= k < |c| && Live(c[k], st);
    forall i | 0 <= i < |c| ensures c[i].xmin != t && c[i].xmax != t {
      assert OnlyWriter(c[i], st, NoWriter);
    }
    assert |d| == |c|;
    forall i | 0 <= i < |d| ensures Live(d[i], st') <==> Live(c[i], st) && d[i].xmax != t {
    }
    assert Live(d[k], st') <==> d[k].xmax != t;
    assert forall i :: 0 <= i < |c| && Live(c[i], st) ==> i == k;
  }

  ghost predicate OneLive<R>(c: Chain<R>, st: StatusMap) {
    exists i :: 0 <= i < |c| && Live(c[i], st) && forall j :: 0 <= j < |c| && j != i ==> !Live(c[j], st)
  }

  /** A committed update leaves one live version exactly if it replaced the live one;
      otherwise the old row lives on beneath the new one, and the chain no longer
      has a committed value. */
  lemma UpdateReplacesExactly<R>(c: Chain<R>, st: StatusMap, old_: R, t: TxId, row: R)
    requires ChainInv(c, st, Some(old_), NoWriter) && IsActive(st, t)
    ensures c != []
    ensures OneLive(UpdateChain(c, t, row), st[t := Committed]) <==> LiveIsLast(c, st)
    ensures ChainInv(UpdateChain(c, t, row), st[t := Committed], Some(row), NoWriter) <==> LiveIsLast(c, st)
  {
    var k :| 0 <= k < |c| && Live(c[k], st);
    forall i | 0 <= i < |c| ensures c[i].xmin != t && c[i].xmax != t {
      assert OnlyWriter(c[i], st, NoWriter);
    }
    var d, st' := UpdateChain(c, t, row), st[t := Committed];
    assert d[|c|] == Version(row, t, 0) && Live(d[|c|], st') && !Superseding(d[|c|], st', NoWriter);
    if LiveIsLast(c, st) {
      assert LeavesNone(c, st, t) && !Ended(c[|c| - 1], st);
      UpdateKeeps(c, st, Some(old_), NoWriter, t, row);
      CommitKeeps(d, st, Some(old_), Writer(t, Some(row)), t);
      assert forall i :: 0 <= i < |d| && i != |c| ==> !Live(d[i], st');
    } else {
      var i :| 0 <= i < |c| - 1 && Live(c[i], st);
      assert d[i] == c[i] && Live(d[i], st');
    }
  }

  /** A committed insert leaves exactly one live version, and a chain that means the
      new row, exactly if the key had no committed row.  A snapshot taken before the
      row lock may not know. */
  lemma InsertReplacesExactly<R>(c: Chain<R>, st: StatusMap, base: Option<R>, t: TxId, row: R)
    requires ChainInv(c, st, base, NoWriter) && IsActive(st, t)
    ensures OneLive(InsertChain(c, t, row), st[t := Committed]) <==> base == None
    ensures ChainInv(InsertChain(c, t, row), st[t := Committed], Some(row), NoWriter) <==> base == None
  {
    HolderFacts(c, st, base, NoWriter, t);
    var d, st' := InsertChain(c, t, row), st[t := Committed];
    assert d[|c|] == Version(row, t, 0) && Live(d[|c|], st') && !Superseding(d[|c|], st', NoWriter);
    forall i | 0 <= i < |c| ensures d[i] == c[i] && (Live(d[i], st') <==> Live(c[i], st)) {
    }
    if base == None {
      InsertKeeps(c, st, base, NoWriter, t, row);
      CommitKeeps(d, st, base, Writer(t, Some(row)), t);
      assert forall i :: 0 <= i < |d| && i != |c| ==> !Live(d[i], st');
    } else {
      var i :| 0 <= i < |c| && Live(c[i], st);
      assert Live(d[i], st');
    }
  }

  /** An update of a row whose deletion is committed, decided on a snapshot that does
      not know it: once committed it has brought the key back as its own row, but
      while it is active, and for good if it aborts, the deleted row is live again,
      exactly if the mark it overwrites is the deletion's. */
  lemma UpdateOfGoneExactly<R>(c: Chain<R>, st: StatusMap, t: TxId, row: R)
    requires ChainInv(c, st, None, NoWriter) && IsActive(st, t) && c != []
    ensures ChainInv(UpdateChain(c, t, row), st[t := Committed], Some(row), NoWriter)
    ensures ChainInv(UpdateChain(c, t, row), st, None, Writer(t, Some(row))) <==> !Ended(c[|c| - 1], st)
    ensures ChainInv(UpdateChain(c, t, row), st[t := Aborted], None, NoWriter) <==> !Ended(c[|c| - 1], st)
  {
    HolderFacts(c, st, None, NoWriter, t);
    UpdateKeepsExactly(c, st, None, NoWriter, t, row);
    var d, last := UpdateChain(c, t, row), |c| - 1;
    assert d[|c|] == Version(row, t, 0);
    GoneCommitted(c, st, t, row);
    if Ended(c[last], st) {
      assert Live(d[last], st[t := Aborted]);
    } else {
      AbortKeeps(d, st, None, Writer(t, Some(row)), t);
    }
  }

  lemma GoneCommitted<R>(c: Chain<R>, st: StatusMap, t: TxId, row: R)
    requires ChainInv(c, st, None, NoWriter) && IsActive(st, t) && c != []
    ensures ChainInv(UpdateChain(c, t, row), st[t := Committed], Some(row), NoWriter)
  {
    HolderFacts(c, st, None, NoWriter, t);
    var d, st' := UpdateChain(c, t, row), st[t := Committed];
    forall i | 0 <= i < |c|
      ensures d[i].xmin == c[i].xmin && !Live(d[i], st') && IdsOk(d[i], st') && OnlyWriter(d[i], st', NoWriter)
    {
      assert OnlyWriter(c[i], st, NoWriter) && !Live(c[i], st);
    }
    assert Live(d[|c|], st');
  }

  /** A row, an aborted update of it, then a committed delete: the row is still there. */
  lemma DeleteAfterAbortIsLost()
    ensures var st := map[1 := Aborted, 2 := Active];
            var c := UpdateChain([Version("row", 0, 0)], 1, "changed");
            var d := DeleteChain(c, 2);
            d.1 && Pick(d.0, Snapshot(3, 4, {3}), st[2 := Committed][3 := Active]) == Some(Version("row", 0, 1))
  {
    var c := UpdateChain([Version("row", 0, 0)], 1, "changed");
    assert OwnIndex([Version("row", 0, 0)], 1) == None;
    assert c == [Version("row", 0, 1), Version("changed", 1, 0)];
    assert OwnIndex(c, 2) == None;
    var d := DeleteChain(c, 2).0;
    assert d == [Version("row", 0, 1), Version("changed", 1, 2)];
    var s, st: StatusMap := Snapshot(3, 4, {3}), map[1 := Aborted, 2 := Committed, 3 := Active];
    assert d[..1] == [d[0]] && Pick([d[0]], s, st) == Some(d[0]);
    assert st == map[1 := Aborted, 2 := Active][2 := Committed][3 := Active];
  }

  /** A row, an aborted update of it, a committed update: the old row is live beneath
      the new one, and a later committed delete brings it back. */
  lemma UpdateAfterAbortKeepsOld()
    ensures var st := map[1 := Aborted, 2 := Committed, 3 := Committed, 4 := Active];
            var c := UpdateChain(UpdateChain([Version("row", 0, 0)], 1, "changed"), 2, "new");
            && Live(c[0], st) && c[0].row == "row"
            && Pick(c, Snapshot(4, 5, {4}), st) == Some(Version("new", 2, 0))
            && DeleteChain(c, 3).1
            && Pick(DeleteChain(c, 3).0, Snapshot(4, 5, {4}), st) == Some(Version("row", 0, 1))
  {
    var st: StatusMap := map[1 := Aborted, 2 := Committed, 3 := Committed, 4 := Active];
    var s := Snapshot(4, 5, {4});
    var first := [Version("row", 0, 0)];
    NotOwn(first, 1);
    var b := UpdateChain(first, 1, "changed");
    assert b == [Version("row", 0, 1), Version("changed", 1, 0)];
    NotOwn(b, 2);
    var c := UpdateChain(b, 2, "new");
    assert c == [Version("row", 0, 1), Version("changed", 1, 2), Version("new", 2, 0)];
    NotOwn(c, 3);
    var d := DeleteChain(c, 3).0;
    assert d == [Version("row", 0, 1), Version("changed", 1, 2), Version("new", 2, 3)];
    var two := d[..2];
    assert two == [Version("row", 0, 1), Version("changed", 1, 2)] && two[..1] == [d[0]];
    assert Pick(two[..1], s, st) == Some(d[0]);
    assert Pick(two, s, st) == Some(d[0]);
  }

  /** Transaction 1 inserts a key and commits while 2, whose snapshot is older, waits
      for the row lock.  2 finds the key free, inserts it too and commits: there are
      two visible rows, and a later delete removes only one of them. */
  lemma InsertOnOldSnapshot()
    ensures var st := map[1 := Committed, 2 := Active];
            var c := [Version("b", 1, 0)];
            var d := InsertChain(c, 2, "a");
            var late, after := Snapshot(3, 4, {3}), st[2 := Committed][3 := Active];
            && ChainInv(c, st, Some("b"), NoWriter) && Frozen(Snapshot(2, 3, {1, 2}), st)
            && Pick(c, Snapshot(2, 3, {1, 2}), st) == None
            && late.Sees(d[0], after) && late.Sees(d[1], after)
            && DeleteChain(d, 3).1 && Pick(DeleteChain(d, 3).0, late, after) == Some(Version("b", 1, 0))
  {
    var st: StatusMap := map[1 := Committed, 2 := Active];
    var c := [Version("b", 1, 0)];
    assert c[..0] == [];
    var d := InsertChain(c, 2, "a");
    assert d == [Version("b", 1, 0), Version("a", 2, 0)];
    NotOwn(d, 3);
    var e := DeleteChain(d, 3).0;
    assert e == [Version("b", 1, 0), Version("a", 2, 3)] && e[..1] == c;
  }

  /** Transaction 2 deletes a row and commits while 3, whose snapshot is older, waits
      for the row lock.  3 still sees the row and updates it, overwriting the mark of
      the deletion: the deleted row is back for everyone, and stays if 3 aborts. */
  lemma UpdateRevivesDeleted()
    ensures var st := map[1 := Committed, 2 := Committed, 3 := Active];
            var c := [Version("b", 1, 2)];
            var d := UpdateChain(c, 3, "x");
            var later := Snapshot(4, 5, {3, 4});
            && ChainInv(c, st, None, NoWriter) && Frozen(Snapshot(3, 4, {2, 3}), st)
            && Pick(c, Snapshot(3, 4, {2, 3}), st) == Some(c[0])
            && d == [Version("b", 1, 3), Version("x", 3, 0)]
            && Pick(d, later, st[4 := Active]) == Some(d[0])
            && Pick(d, later, st[3 := Aborted][4 := Active]) == Some(d[0])
  {
    var st: StatusMap := map[1 := Committed, 2 := Committed, 3 := Active];
    var c := [Version("b", 1, 2)];
    assert c[..0] == [];
    NotOwn(c, 3);
    var d := UpdateChain(c, 3, "x");
    assert d == [Version("b", 1, 3), Version("x", 3, 0)] && d[..1] == [d[0]];
    assert [d[0]][..0] == [];
  }

  lemma NotOwn<R>(c: Chain<R>, t: TxId)
    requires forall i :: 0 <= i < |c| ==> c[i].xmin != t
    ensures OwnIndex(c, t) == None
  {
  }

  // -----------------------------------------------------------------
  // Commit and abort
  // -----------------------------------------------------------------

  lemma CommitKeeps<R>(c: Chain<R>, st: StatusMap, base: Option<R>, p: Pending<R>, t: TxId)
    requires ChainInv(c, st, base, p) && IsActive(st, t)
    ensures p.Writer? && p.t == t ==> ChainInv(c, st[t := Committed], p.value, NoWriter)
    ensures !(p.Writer? && p.t == t) ==> ChainInv(c, st[t := Committed], base, p)
  {
    var st' := st[t := Committed];
    if p.Writer? && p.t == t {
      forall i | 0 <= i < |c|
        ensures Live(c[i], st') <==> c[i].xmin == t
        ensures OnlyWriter(c[i], st', NoWriter)
      {
        assert OnlyWriter(c[i], st, p);
        assert Live(c[i], st) ==> c[i].xmax == t;
      }
    } else {
      OtherFinishes(c, st, base, p, t, Committed);
    }
  }

  lemma AbortKeeps<R>(c: Chain<R>, st: StatusMap, base: Option<R>, p: Pending<R>, t: TxId)
    requires ChainInv(c, st, base, p) && IsActive(st, t)
    ensures ChainInv(c, st[t := Aborted], base, if p.Writer? && p.t == t then NoWriter else p)
  {
    var st' := st[t := Aborted];
    if p.Writer? && p.t == t {
      forall i | 0 <= i < |c|
        ensures Live(c[i], st') <==> Live(c[i], st)
        ensures OnlyWriter(c[i], st', NoWriter)
      {
        assert OnlyWriter(c[i], st, p);
      }
    } else {
      OtherFinishes(c, st, base, p, t, Aborted);
    }
  }

  /** A transaction that did not write the key finishes. */
  lemma OtherFinishes<R>(c: Chain<R>, st: StatusMap, base: Option<R>, p: Pending<R>, t: TxId, outcome: Status)
    requires ChainInv(c, st, base, p) && IsActive(st, t) && !(p.Writer? && p.t == t) && outcome != Active
    ensures ChainInv(c, st[t := outcome], base, p)
  {
    var st' := st[t := outcome];
    forall i | 0 <= i < |c|
      ensures Live(c[i], st') <==> Live(c[i], st)
      ensures OnlyWriter(c[i], st', p)
    {
      assert OnlyWriter(c[i], st, p);
    }
  }

  lemma FinishHidden<R>(c: Chain<R>, st: StatusMap, s: Snapshot, value: Option<R>, t: TxId, outcome: Status)
    requires VisibleIs(c, s, st, value) && Frozen(s, st) && IsActive(st, t) && t != s.txid && outcome != Active
    ensures VisibleIs(c, s, st[t := outcome], value) && Frozen(s, st[t := outcome])
  {
    forall v: Version<R> ensures s.Sees(v, st[t := outcome]) <==> s.Sees(v, st) {
    }
  }

  // -----------------------------------------------------------------
  // Collection
  // -----------------------------------------------------------------

  /** The keys that a collection leaves a version of. */
  function Alive<R>(chains: map<int, Chain<R>>, st: StatusMap, horizon: nat): set<int> {
    set k | k in chains && |GcChain(chains[k], st, horizon)| > 0
  }

  /** Every chain loses its reclaimable versions; a key left without any goes,
      unless it is in `skipped` (the source steps over the neighbours of a key
      it has just removed), which then keeps its old chain. */
  function CollectAll<R>(chains: map<int, Chain<R>>, st: StatusMap, horizon: nat,
                         skipped: set<int>): map<int, Chain<R>> {
    map k | k in chains && (k in skipped || GcChain(chains[k], st, horizon) != []) ::
      var c := GcChain(chains[k], st, horizon);
      if c == [] then chains[k] else c
  }

  /** Where the surviving versions come from. */
  lemma {:induction false} GcSources<R>(c: Chain<R>, st: StatusMap, horizon: nat) returns (at: seq<nat>)
    ensures |at| == |GcChain(c, st, horizon)|
    ensures forall i :: 0 <= i < |at| ==> at[i] < |c| && GcChain(c, st, horizon)[i] == c[at[i]]
    ensures forall i, j :: 0 <= i < j < |at| ==> at[i] < at[j]
    ensures forall k :: 0 <= k < |c| && !Reclaimable(c[k], st, horizon) ==> k in at
  {
    if c == [] {
      at := [];
    } else {
      at := GcSources(c[..|c| - 1], st, horizon);
      if !Reclaimable(c[|c| - 1], st, horizon) {
        at := at + [|c| - 1];
        assert at[|at| - 1] == |c| - 1;
      }
    }
  }

  lemma GcKeepsInv<R>(c: Chain<R>, st: StatusMap, base: Option<R>, p: Pending<R>, horizon: nat)
    requires ChainInv(c, st, base, p)
    ensures ChainInv(GcChain(c, st, horizon), st, base, p)
  {
    var d := GcChain(c, st, horizon);
    var at := GcSources(c, st, horizon);
    if base.Some? {
      var k :| 0 <= k < |c| && Live(c[k], st);
      assert k in at;
      var i :| 0 <= i < |at| && at[i] == k;
      assert Live(d[i], st);
    }
    if p.Writer? && p.value.Some? {
      assert |c| - 1 in at;
      var i :| 0 <= i < |at| && at[i] == |c| - 1;
      var last := at[|at| - 1];
      assert last <= |c| - 1 && d[|d| - 1] == c[last];
    }
  }

  lemma GcHidden<R>(c: Chain<R>, st: StatusMap, s: Snapshot, value: Option<R>, horizon: nat)
    requires VisibleIs(c, s, st, value) && Frozen(s, st) && HorizonBelow(s, st, horizon)
    ensures VisibleIs(GcChain(c, st, horizon), s, st, value)
  {
    var d := GcChain(c, st, horizon);
    var at := GcSources(c, st, horizon);
    if value.Some? {
      var k :| 0 <= k < |c| && s.Sees(c[k], st);
      assert !Reclaimable(c[k], st, horizon);
      assert k in at;
      var i :| 0 <= i < |at| && at[i] == k;
      assert s.Sees(d[i], st);
    }
  }

  lemma GcUpToDate<R>(c: Chain<R>, st: StatusMap, s: Snapshot, horizon: nat)
    requires UpToDate(c, s, st)
    ensures UpToDate(GcChain(c, st, horizon), s, st)
  {
    var at := GcSources(c, st, horizon);
  }
}
