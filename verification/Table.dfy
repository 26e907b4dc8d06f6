/** Multi-version table storage, `Table` of minidb/storage/table.py: a B+ tree of
    version chains.  The latch makes each method one atomic step. */
module Tables {
  import opened Basics
  import opened Versions
  import B = BPlusTree
  import opened Chains

  class Table<R> {
    const tree: B.BPlusTree<Chain<R>>
    const hasUserPk: bool
    var nextRowid: nat

    ghost predicate Valid()
      reads this, tree, tree.nodes
    {
      tree.Valid()
    }

    ghost function Chains(): map<Key, Chain<R>>
      reads tree
    {
      tree.contents
    }

    ghost function ChainOf(k: Key): Chain<R>
      reads tree
    {
      if k in Chains() then Chains()[k] else []
    }

    constructor (hasUserPk: bool, order: nat)
      requires order >= 3
      ensures Valid() && fresh(tree) && fresh(tree.nodes)
      ensures Chains() == map[] && nextRowid == 1 && this.hasUserPk == hasUserPk
    {
      this.hasUserPk := hasUserPk;
      tree := new B.BPlusTree<Chain<R>>(order);
      nextRowid := 1;
    }

    method AllocateRowid() returns (key: nat)
      modifies this
      ensures key == old(nextRowid) && nextRowid == old(nextRowid) + 1
    {
      key := nextRowid;
      nextRowid := nextRowid + 1;
    }

    /** Recovery: moves the counter past a replayed key, unless the keys of the table
        are the values of a primary key column. */
    method BumpRowid(key: int)
      modifies this
      ensures hasUserPk ==> nextRowid == old(nextRowid)
      ensures !hasUserPk ==> key < nextRowid && old(nextRowid) <= nextRowid
      ensures nextRowid == old(nextRowid) || nextRowid == key + 1
    {
      if hasUserPk {
        return;
      }
      if key >= nextRowid {
        nextRowid := key + 1;
      }
    }

    method Insert(txid: TxId, row: R, key: Key)
      requires Valid()
      modifies tree, tree.nodes
      ensures Valid() && fresh(tree.nodes - old(tree.nodes))
      ensures Chains() == old(Chains())[key := InsertChain(old(ChainOf(key)), txid, row)]
    {
      hide B.BPlusTree.Valid;
      var chain := tree.Get(key);
      if chain == None {
        assert InsertChain([], txid, row) == [Version(row, txid, 0)];
        tree.Insert(key, [Version(row, txid, 0)]);
      } else {
        tree.Insert(key, chain.value + [Version(row, txid, 0)]);
      }
    }

    /** Fails, without effect, on a key that has no chain. */
    method Update(txid: TxId, key: Key, row: R) returns (ok: bool)
      requires Valid() && (forall k :: k in Chains() ==> Chains()[k] != [])
      modifies tree, tree.nodes
      ensures Valid() && fresh(tree.nodes - old(tree.nodes))
      ensures ok == (key in old(Chains()))
      ensures Chains() == if ok then old(Chains())[key := UpdateChain(old(ChainOf(key)), txid, row)] else old(Chains())
    {
      hide B.BPlusTree.Valid;
      var found := tree.Get(key);
      if found == None {
        return false;
      }
      var chain := found.value;
      assert chain == Chains()[key];
      var own := FindOwn(chain, txid);
      if own.Some? {
        tree.Insert(key, chain[own.value := chain[own.value].(row := row)]);
      } else {
        var last := |chain| - 1;
        tree.Insert(key, chain[last := chain[last].(xmax := txid)] + [Version(row, txid, 0)]);
      }
      ok := true;
    }

    /** None stands for the error on a key that has no chain. */
    method Delete(txid: TxId, key: Key) returns (r: Option<bool>)
      requires Valid() && (forall k :: k in Chains() ==> Chains()[k] != [])
      modifies tree, tree.nodes
      ensures Valid() && fresh(tree.nodes - old(tree.nodes))
      ensures r.Some? <==> key in old(Chains())
      ensures r == None ==> Chains() == old(Chains())
      ensures r.Some? ==>
                var (c, done) := DeleteChain(old(ChainOf(key)), txid);
                r.value == done && Chains() == if c == [] then old(Chains()) - {key} else old(Chains())[key := c]
      ensures txid > 0 && r.Some? ==> (r.value <==> ChainOf(key) != old(ChainOf(key)))
    {
      hide B.BPlusTree.Valid;
      if key in Chains() && txid > 0 { DeleteReportsExactly(ChainOf(key), txid); }
      var found := tree.Get(key);
      if found == None {
        return None;
      }
      var chain := found.value;
      assert chain == Chains()[key];
      var own := FindOwn(chain, txid);
      if own.Some? {
        var rest := chain[..own.value] + chain[own.value + 1..];
        if |rest| == 0 {
          var _ := tree.Delete(key);
        } else {
          tree.Insert(key, rest);
        }
        return Some(true);
      }
      var last := |chain| - 1;
      if chain[last].xmax != 0 {
        return Some(false);
      }
      tree.Insert(key, chain[last := chain[last].(xmax := txid)]);
      return Some(true);
    }

    /** The loop over the chain, newest version first. */
    static method FindOwn(chain: Chain<R>, txid: TxId) returns (r: Option<nat>)
      ensures r == OwnIndex(chain, txid)
    {
      var i := |chain|;
      assert chain[..i] == chain;
      while i > 0
        invariant i <= |chain| && OwnIndex(chain[..i], txid) == OwnIndex(chain, txid)
      {
        i := i - 1;
        assert chain[..i + 1][..i] == chain[..i];
        if chain[i].xmin == txid && chain[i].xmax == 0 {
          return Some(i);
        }
      }
      r := None;
    }

    static method PickVisible(chain: Chain<R>, s: Snapshot, st: StatusMap) returns (r: Option<Version<R>>)
      ensures r == Pick(chain, s, st)
    {
      var i := |chain|;
      assert chain[..i] == chain;
      while i > 0
        invariant i <= |chain| && Pick(chain[..i], s, st) == Pick(chain, s, st)
      {
        i := i - 1;
        assert chain[..i + 1][..i] == chain[..i];
        if s.Sees(chain[i], st) {
          return Some(chain[i]);
        }
      }
      r := None;
    }

    method VisibleVersion(key: Key, s: Snapshot, st: StatusMap) returns (r: Option<Version<R>>)
      requires Valid()
      ensures r == Pick(ChainOf(key), s, st)
    {
      var chain := tree.Get(key);
      if chain == None {
        return None;
      }
      r := PickVisible(chain.value, s, st);
    }

    // ---------------------------------------------------------------
    // Scans and collection
    // ---------------------------------------------------------------

    /** A scan yields, by increasing key, each key with a visible version and its row. */
    static ghost predicate ScanIs(out: seq<(Key, R)>, chains: map<Key, Chain<R>>, s: Snapshot, st: StatusMap) {
      && (forall i, j :: 0 <= i < j < |out| ==> out[i].0 < out[j].0)
      && (forall i :: 0 <= i < |out| ==> out[i].0 in chains && RowSeen(chains[out[i].0], s, st) == Some(out[i].1))
      && (forall k :: k in chains && RowSeen(chains[k], s, st).Some? ==> exists i :: 0 <= i < |out| && out[i].0 == k)
    }

    lemma ItemsAreAll(items: seq<(Key, Chain<R>)>)
      requires tree.Complete(items, None, None)
      ensures forall i, j :: 0 <= i < j < |items| ==> items[i].0 < items[j].0
      ensures forall i :: 0 <= i < |items| ==> items[i].0 in Chains() && items[i].1 == Chains()[items[i].0]
      ensures forall k :: k in Chains() ==> exists i :: 0 <= i < |items| && items[i].0 == k
    {
      forall k | k in Chains() ensures exists i :: 0 <= i < |items| && items[i].0 == k {
        assert B.BPlusTree<Chain<R>>.InRange(k, None, None);
        assert tree.Yielded(items, k);
      }
    }

    /** The scan after its first `n` items. */
    static ghost predicate ScannedTo(out: seq<(Key, R)>, items: seq<(Key, Chain<R>)>, n: nat, s: Snapshot,
                                     st: StatusMap) {
      && n <= |items|
      && (forall a, b :: 0 <= a < b < |out| ==> out[a].0 < out[b].0)
      && (forall a :: 0 <= a < |out| ==> FromItem(out[a], items, n, s, st))
      && (forall j :: 0 <= j < n && RowSeen(items[j].1, s, st).Some? ==>
            exists a :: 0 <= a < |out| && out[a].0 == items[j].0)
    }

    static ghost predicate FromItem(row: (Key, R), items: seq<(Key, Chain<R>)>, n: nat, s: Snapshot, st: StatusMap) {
      exists j :: 0 <= j < n <= |items| && items[j].0 == row.0 && RowSeen(items[j].1, s, st) == Some(row.1)
    }

    static lemma ScanStep(out: seq<(Key, R)>, items: seq<(Key, Chain<R>)>, n: nat, s: Snapshot, st: StatusMap)
      requires ScannedTo(out, items, n, s, st) && n < |items|
      requires forall i, j :: 0 <= i < j < |items| ==> items[i].0 < items[j].0
      ensures var seen := RowSeen(items[n].1, s, st);
        ScannedTo(if seen.Some? then out + [(items[n].0, seen.value)] else out, items, n + 1, s, st)
    {
      hide RowSeen;
      var seen := RowSeen(items[n].1, s, st);
      var more := if seen.Some? then out + [(items[n].0, seen.value)] else out;
      forall a | 0 <= a < |more| ensures FromItem(more[a], items, n + 1, s, st) {
        if a < |out| {
          assert FromItem(out[a], items, n, s, st);
        } else {
          assert items[n].0 == more[a].0;
        }
      }
      forall a | 0 <= a < |out| ensures out[a].0 < items[n].0 {
        assert FromItem(out[a], items, n, s, st);
      }
      forall j | 0 <= j < n + 1 && RowSeen(items[j].1, s, st).Some?
        ensures exists a :: 0 <= a < |more| && more[a].0 == items[j].0
      {
        if j < n {
          var a :| 0 <= a < |out| && out[a].0 == items[j].0;
          assert more[a].0 == items[j].0;
        } else {
          assert more[|out|].0 == items[j].0;
        }
      }
    }

    lemma ScannedAll(out: seq<(Key, R)>, items: seq<(Key, Chain<R>)>, s: Snapshot, st: StatusMap)
      requires ScannedTo(out, items, |items|, s, st)
      requires forall i :: 0 <= i < |items| ==> items[i].0 in Chains() && items[i].1 == Chains()[items[i].0]
      requires forall k :: k in Chains() ==> exists i :: 0 <= i < |items| && items[i].0 == k
      ensures ScanIs(out, Chains(), s, st)
    {
      hide RowSeen;
      forall a | 0 <= a < |out| ensures out[a].0 in Chains() && RowSeen(Chains()[out[a].0], s, st) == Some(out[a].1) {
        assert FromItem(out[a], items, |items|, s, st);
      }
    }

    method Scan(s: Snapshot, st: StatusMap) returns (out: seq<(Key, R)>)
      requires Valid()
      ensures ScanIs(out, Chains(), s, st)
    {
      hide B.BPlusTree.Valid, B.BPlusTree.Complete, Pick, ScannedTo, ScanIs;
      var items := tree.Range(None, None);
      ItemsAreAll(items);
      out := [];
      assert ScannedTo(out, items, 0, s, st) by { NothingScanned(items, s, st); }
      var i := 0;
      while i < |items|
        invariant i <= |items| && ScannedTo(out, items, i, s, st)
      {
        ScanStep(out, items, i, s, st);
        var v := PickVisible(items[i].1, s, st);
        if v.Some? {
          out := out + [(items[i].0, v.value.row)];
        }
        i := i + 1;
      }
      ScannedAll(out, items, s, st);
    }

    static lemma NothingScanned(items: seq<(Key, Chain<R>)>, s: Snapshot, st: StatusMap)
      ensures ScannedTo([], items, 0, s, st)
    {
    }

    /** The survivors of one chain. */
    static method Survivors(chain: Chain<R>, st: StatusMap, horizon: nat) returns (alive: Chain<R>)
      ensures alive == GcChain(chain, st, horizon)
    {
      alive := [];
      var i := 0;
      while i < |chain|
        invariant i <= |chain| && alive == GcChain(chain[..i], st, horizon)
      {
        assert chain[..i + 1][..i] == chain[..i];
        if !Reclaimable(chain[i], st, horizon) {
          alive := alive + [chain[i]];
        }
        i := i + 1;
      }
      assert chain[..i] == chain;
    }

    /** `gc`: collects every chain, puts the survivors back, then deletes the keys
        left without any, except those that last loop steps over.  Which those are
        is decided by the leaves the tree had before. */
    method Gc(st: StatusMap, horizon: nat)
      requires Valid()
      modifies tree, tree.nodes
      ensures Valid() && fresh(tree.nodes - old(tree.nodes))
      ensures Chains() == CollectAll(old(Chains()), st, horizon,
                            B.Spared(old(tree.Layout()), Alive(old(Chains()), st, horizon)))
    {
      hide B.BPlusTree.Valid, GcChain, B.Spared, B.Skim;
      ghost var before, layout := Chains(), tree.Layout();
      var keep := KeepSurvivors(st, horizon);
      tree.RemoveOthers(keep);
      tree.LayoutOk();
      SparedHere(layout, keep);
      CollectedIs(before, Chains(), keep, st, horizon, B.Spared(layout, keep));
    }

    lemma SparedHere(layout: seq<seq<int>>, keep: set<int>)
      requires B.Laid(tree.Layout(), Chains().Keys) && |layout| == |tree.leaves|
      requires forall i :: 0 <= i < |layout| ==> tree.leaves[i].keys == B.Skim(layout[i], keep)
      ensures forall k :: k in Chains() && k !in keep <==> k in B.Spared(layout, keep)
    {
      hide B.Skim;
      forall k ensures k in Chains() && k !in keep <==> k in B.Spared(layout, keep) {
        if k in Chains() && k !in keep {
          var i :| 0 <= i < |tree.Layout()| && k in tree.Layout()[i];
          assert k in B.Skim(layout[i], keep);
        }
        if k in B.Spared(layout, keep) {
          var i :| 0 <= i < |layout| && k in B.Skim(layout[i], keep);
          assert k in tree.Layout()[i];
        }
      }
    }

    /** The first loop: every chain with survivors is replaced by them. */
    method KeepSurvivors(st: StatusMap, horizon: nat) returns (keep: set<Key>)
      requires Valid()
      modifies tree, tree.nodes
      ensures Valid() && fresh(tree.nodes - old(tree.nodes)) && tree.leaves == old(tree.leaves)
      ensures forall n :: n in tree.leaves ==> n.keys == old(n.keys)
      ensures keep == Alive(old(Chains()), st, horizon) && Chains() == Trimmed(old(Chains()), keep, st, horizon)
    {
      hide B.BPlusTree.Valid, B.BPlusTree.Complete, GcChain, KeptSoFar, Trimmed, Alive;
      ghost var before := Chains();
      var items := tree.Range(None, None);
      ItemsAreAll(items);
      keep := {};
      KeptNone(items, before, st, horizon);
      var i := 0;
      while i < |items|
        invariant i <= |items| && Valid() && fresh(tree.nodes - old(tree.nodes)) && tree.leaves == old(tree.leaves)
        invariant forall n :: n in tree.leaves ==> n.keys == old(n.keys)
        invariant KeptSoFar(items, i, before, keep, st, horizon) && Chains() == Trimmed(before, keep, st, horizon)
      {
        var alive := Survivors(items[i].1, st, horizon);
        KeptMore(items, i, before, keep, st, horizon);
        if alive != [] {
          TrimMore(before, keep, items[i].0, st, horizon);
          keep := keep + {items[i].0};
          tree.Insert(items[i].0, alive);
        }
        i := i + 1;
      }
      KeptAreAlive(items, before, keep, st, horizon);
    }
  }

  // -----------------------------------------------------------------
  // What scans return
  // -----------------------------------------------------------------

  /** `out` lists the rows in key order. */
  ghost predicate Enumerates<R>(out: seq<(Key, R)>, rows: map<Key, R>) {
    && (forall i, j :: 0 <= i < j < |out| ==> out[i].0 < out[j].0)
    && (forall i :: 0 <= i < |out| ==> out[i].0 in rows && rows[out[i].0] == out[i].1)
    && (forall k :: k in rows ==> exists i :: 0 <= i < |out| && out[i].0 == k)
  }

  lemma EnumeratesNone<R>(a: seq<(Key, R)>, rows: map<Key, R>)
    requires Enumerates(a, rows)
    ensures a == [] <==> rows == map[]
  {
    if a == [] {
      assert forall k :: k !in rows;
    } else {
      assert a[0].0 in rows;
    }
  }

  lemma {:induction false} EnumeratesOnce<R>(a: seq<(Key, R)>, b: seq<(Key, R)>, rows: map<Key, R>)
    requires Enumerates(a, rows) && Enumerates(b, rows)
    ensures a == b
    decreases |a|
  {
    hide Enumerates;
    EnumeratesNone(a, rows);
    EnumeratesNone(b, rows);
    if a != [] {
      LastIsHighest(a, b, rows);
      ButLast(a, rows);
      ButLast(b, rows);
      EnumeratesOnce(a[..|a| - 1], b[..|b| - 1], rows - {a[|a| - 1].0});
      assert a == a[..|a| - 1] + [a[|a| - 1]] && b == b[..|b| - 1] + [b[|b| - 1]];
    }
  }

  lemma LastIsHighest<R>(a: seq<(Key, R)>, b: seq<(Key, R)>, rows: map<Key, R>)
    requires Enumerates(a, rows) && Enumerates(b, rows) && a != [] && b != []
    ensures a[|a| - 1] == b[|b| - 1]
  {
    var k := b[|b| - 1].0;
    var j :| 0 <= j < |b| && b[j].0 == a[|a| - 1].0;
    assert b[j].0 <= k;
    var i :| 0 <= i < |a| && a[i].0 == k;
    assert a[i].0 <= a[|a| - 1].0;
  }

  lemma ButLast<R>(a: seq<(Key, R)>, rows: map<Key, R>)
    requires Enumerates(a, rows) && a != []
    ensures Enumerates(a[..|a| - 1], rows - {a[|a| - 1].0})
  {
    var front := a[..|a| - 1];
    forall k | k in rows && k != a[|a| - 1].0 ensures exists i :: 0 <= i < |front| && front[i].0 == k {
      var i :| 0 <= i < |a| && a[i].0 == k;
      assert front[i].0 == k;
    }
  }

  lemma EnumeratesExactly<R>(a: seq<(Key, R)>, b: seq<(Key, R)>, rows: map<Key, R>, others: map<Key, R>)
    requires Enumerates(a, rows) && Enumerates(b, others)
    ensures a == b <==> rows == others
  {
    if a == b {
      forall k ensures k in rows <==> k in others {
        assert k in rows ==> exists i :: 0 <= i < |a| && a[i].0 == k;
        assert k in others ==> exists i :: 0 <= i < |a| && a[i].0 == k;
      }
      forall k | k in rows ensures rows[k] == others[k] {
        var i :| 0 <= i < |a| && a[i].0 == k;
      }
    } else if rows == others {
      EnumeratesOnce(a, b, rows);
    }
  }

  /** The rows a snapshot sees. */
  ghost function SeenRows<R>(chains: map<Key, Chain<R>>, s: Snapshot, st: StatusMap): map<Key, R> {
    map k | k in chains && RowSeen(chains[k], s, st).Some? :: RowSeen(chains[k], s, st).value
  }

  lemma ScanEnumerates<R>(out: seq<(Key, R)>, chains: map<Key, Chain<R>>, s: Snapshot, st: StatusMap)
    requires Table<R>.ScanIs(out, chains, s, st)
    ensures Enumerates(out, SeenRows(chains, s, st))
  {
    hide Pick;
  }

  /** A collection is invisible: what a snapshot in use scans before it and after it
      is the same list. */
  lemma GcScansSame<R>(before: seq<(Key, R)>, after: seq<(Key, R)>, chains: map<Key, Chain<R>>, s: Snapshot,
                       st: StatusMap,
                       horizon: nat, skipped: set<Key>)
    requires Table<R>.ScanIs(before, chains, s, st)
    requires Table<R>.ScanIs(after, CollectAll(chains, st, horizon, skipped), s, st)
    requires LiveSnapshot(s, st) && HorizonBelow(s, st, horizon) && 0 !in st
    ensures before == after
  {
    var left := CollectAll(chains, st, horizon, skipped);
    forall k ensures k in SeenRows(chains, s, st) <==> k in SeenRows(left, s, st)
      ensures k in SeenRows(chains, s, st) ==> SeenRows(left, s, st)[k] == SeenRows(chains, s, st)[k]
    {
      if k in chains {
        GcKeepsPick(chains[k], s, st, horizon);
      }
    }
    ScanEnumerates(before, chains, s, st);
    ScanEnumerates(after, left, s, st);
    hide *;
    EnumeratesExactly(before, after, SeenRows(chains, s, st), SeenRows(left, s, st));
  }

  ghost function Trimmed<R>(chains: map<Key, Chain<R>>, keep: set<Key>, st: StatusMap,
                            horizon: nat): map<Key, Chain<R>> {
    map k | k in chains :: if k in keep then GcChain(chains[k], st, horizon) else chains[k]
  }

  lemma TrimMore<R>(chains: map<Key, Chain<R>>, keep: set<Key>, k: Key, st: StatusMap, horizon: nat)
    requires k in chains
    ensures Trimmed(chains, keep + {k}, st, horizon)
         == Trimmed(chains, keep, st, horizon)[k := GcChain(chains[k], st, horizon)]
  {
  }

  /** `keep` holds the keys with survivors among the first `n` items. */
  ghost predicate KeptSoFar<R>(items: seq<(Key, Chain<R>)>, n: nat, chains: map<Key, Chain<R>>, keep: set<Key>,
                               st: StatusMap, horizon: nat) {
    && n <= |items| && keep <= Alive(chains, st, horizon)
    && forall j :: 0 <= j < n && GcChain(items[j].1, st, horizon) != [] ==> items[j].0 in keep
  }

  lemma KeptNone<R>(items: seq<(Key, Chain<R>)>, chains: map<Key, Chain<R>>, st: StatusMap, horizon: nat)
    ensures KeptSoFar(items, 0, chains, {}, st, horizon) && Trimmed(chains, {}, st, horizon) == chains
  {
  }

  lemma KeptMore<R>(items: seq<(Key, Chain<R>)>, n: nat, chains: map<Key, Chain<R>>, keep: set<Key>, st: StatusMap,
                    horizon: nat)
    requires n < |items| && KeptSoFar(items, n, chains, keep, st, horizon)
    requires items[n].0 in chains && items[n].1 == chains[items[n].0]
    ensures KeptSoFar(items, n + 1, chains,
                      if GcChain(items[n].1, st, horizon) != [] then keep + {items[n].0} else keep, st, horizon)
    ensures Trimmed(chains, keep, st, horizon).Keys == chains.Keys
  {
    hide GcChain;
  }

  lemma KeptAreAlive<R>(items: seq<(Key, Chain<R>)>, chains: map<Key, Chain<R>>, keep: set<Key>, st: StatusMap,
                        horizon: nat)
    requires forall i :: 0 <= i < |items| ==> items[i].0 in chains && items[i].1 == chains[items[i].0]
    requires forall k :: k in chains ==> exists i :: 0 <= i < |items| && items[i].0 == k
    requires KeptSoFar(items, |items|, chains, keep, st, horizon)
    ensures keep == Alive(chains, st, horizon)
  {
    hide GcChain;
    forall k | k in Alive(chains, st, horizon) ensures k in keep {
      var j :| 0 <= j < |items| && items[j].0 == k;
    }
  }

  lemma CollectedIs<R>(before: map<Key, Chain<R>>, after: map<Key, Chain<R>>, keep: set<Key>, st: StatusMap,
                       horizon: nat, spared: set<Key>)
    requires keep == Alive(before, st, horizon)
    requires forall k :: k in after ==> k in before && after[k] == Trimmed(before, keep, st, horizon)[k]
    requires forall k :: k in before && k in keep ==> k in after
    requires forall k :: k in after && k !in keep <==> k in spared
    ensures after == CollectAll(before, st, horizon, spared)
  {
    hide GcChain;
    var goal := CollectAll(before, st, horizon, spared);
    assert forall k :: k in after <==> k in goal;
    assert forall k :: k in after ==> after[k] == goal[k];
  }
}
