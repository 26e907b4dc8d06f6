/** The in-memory B+ tree of minidb/storage/bptree.py: a heap of nodes with
    parent pointers, a linked leaf chain, cascading splits and deletion that
    never merges.

    Separators may outlive the keys they were copied from and leaves may run
    empty, so the invariant does not speak of subtree contents.  Instead every
    node carries a ghost key interval [lo, hi): children tile the interval of
    their parent, leaves tile the whole key line in chain order, and a leaf
    holds exactly the stored keys of its own interval.

    Each heap update is a function on a value (`Shape`, a picture of the node
    heap); lemmas say what the function keeps, and the methods of the class are
    proved to perform exactly these updates. */
module BPlusTree {
  import opened Basics

  datatype Bound = NegInf | At(key: int) | PosInf

  ghost predicate InInterval(lo: Bound, k: int, hi: Bound) {
    && (lo == NegInf || (lo.At? && lo.key <= k))
    && (hi == PosInf || (hi.At? && k < hi.key))
  }

  ghost predicate StrictlySorted(keys: seq<int>) {
    forall i, j :: 0 <= i < j < |keys| ==> keys[i] < keys[j]
  }

  ghost predicate Distinct<T>(s: seq<T>) {
    forall i, j :: 0 <= i < j < |s| ==> s[i] != s[j]
  }

  /** `list.insert(i, x)`. */
  function InsertAt<T>(s: seq<T>, i: nat, x: T): (r: seq<T>)
    requires i <= |s|
    ensures |r| == |s| + 1 && r[i] == x
    ensures forall j :: 0 <= j < i ==> r[j] == s[j]
    ensures forall j :: i < j < |r| ==> r[j] == s[j - 1]
  {
    s[..i] + [x] + s[i..]
  }

  /** `list.pop(i)`. */
  function RemoveAt<T>(s: seq<T>, i: nat): (r: seq<T>)
    requires i < |s|
    ensures |r| == |s| - 1
    ensures forall j :: 0 <= j < i ==> r[j] == s[j]
    ensures forall j :: i <= j < |r| ==> r[j] == s[j + 1]
  {
    s[..i] + s[i + 1..]
  }

  // -----------------------------------------------------------------
  // The node heap as a value
  // -----------------------------------------------------------------

  datatype Cell<V> = Cell(isLeaf: bool, parent: Node?<V>, keys: seq<int>, values: seq<V>, next: Node?<V>,
                          children: seq<Node<V>>, lo: Bound, hi: Bound, level: nat)
  {
    ghost predicate Holds(k: int) {
      InInterval(lo, k, hi)
    }

    /** Lower end of the interval of child `i`. */
    ghost function SepLo(i: nat): Bound
      requires i <= |keys|
    {
      if i == 0 then lo else At(keys[i - 1])
    }

    /** Upper end of the interval of child `i`. */
    ghost function SepHi(i: nat): Bound
      requires i <= |keys|
    {
      if i == |keys| then hi else At(keys[i])
    }

    ghost predicate KeysOk() {
      && StrictlySorted(keys)
      && (forall i :: 0 <= i < |keys| ==> Holds(keys[i]))
      && (isLeaf <==> level == 0)
      && (isLeaf ==> |values| == |keys| && children == [])
      && (!isLeaf ==> |children| == |keys| + 1)
      && (!isLeaf ==> forall i :: 0 <= i < |keys| ==> lo != At(keys[i]))
    }

    /** A leaf stores exactly the entries of its interval. */
    ghost predicate Stores(contents: map<int, V>) {
      && |values| == |keys|
      && (forall i :: 0 <= i < |keys| ==> keys[i] in contents && contents[keys[i]] == values[i])
      && (forall k :: k in contents && Holds(k) ==> k in keys)
    }
  }

  datatype Shape<V> = Shape(heap: map<Node<V>, Cell<V>>, root: Node<V>, leaves: seq<Node<V>>)
  {
    /** While a split is being reported upwards, `pr` is the new right half of
        `pl` and not yet a child: towards its parent, `pl` still covers both. */
    ghost function OuterHi(n: Node<V>, pl: Node?<V>, pr: Node?<V>): Bound
      requires n in heap
    {
      if n == pl && pr in heap then heap[pr].hi else heap[n].hi
    }

    ghost predicate ChildOk(n: Node<V>, i: nat, pl: Node?<V>, pr: Node?<V>)
      requires n in heap && i < |heap[n].children| == |heap[n].keys| + 1
    {
      var c := heap[n].children[i];
      && c in heap && heap[c].parent == n && c != pr
      && heap[c].level + 1 == heap[n].level
      && heap[c].lo == heap[n].SepLo(i) && OuterHi(c, pl, pr) == heap[n].SepHi(i)
    }

    ghost predicate ChildrenOk(n: Node<V>, pl: Node?<V>, pr: Node?<V>)
      requires n in heap
    {
      && |heap[n].children| == |heap[n].keys| + 1
      && forall i {:trigger ChildOk(n, i, pl, pr)} :: 0 <= i < |heap[n].children| ==> ChildOk(n, i, pl, pr)
    }

    ghost predicate CellOk(n: Node<V>)
      requires n in heap && root in heap
    {
      heap[n].KeysOk() && heap[n].level <= heap[root].level
    }

    ghost predicate ParentOk(n: Node<V>)
      requires n in heap
    {
      var p := heap[n].parent;
      p in heap && !heap[p].isLeaf && n in heap[p].children
    }

    ghost predicate NodesOk(pl: Node?<V>, pr: Node?<V>) {
      && root in heap && heap[root].parent == null
      && heap[root].lo == NegInf && OuterHi(root, pl, pr) == PosInf
      && (forall n {:trigger CellOk(n)} :: n in heap ==> CellOk(n))
      && (forall n {:trigger ChildrenOk(n, pl, pr)} :: n in heap && !heap[n].isLeaf ==> ChildrenOk(n, pl, pr))
      && (forall n {:trigger ParentOk(n)} :: n in heap && n != root && n != pr ==> ParentOk(n))
    }

    ghost predicate Pending(pl: Node?<V>, pr: Node?<V>) {
      && (pl == null <==> pr == null)
      && (pl != null ==>
            && pl in heap && pr in heap && pl != pr && pr != root
            && heap[pl].parent == heap[pr].parent && heap[pl].level == heap[pr].level
            && heap[pl].hi.At? && heap[pl].hi == heap[pr].lo
            && heap[pl].lo != heap[pl].hi && heap[pr].lo != heap[pr].hi
            && InInterval(heap[pl].lo, heap[pl].hi.key, heap[pr].hi))
    }

    /** The leaf chain visits every leaf, and their intervals tile the line. */
    ghost predicate ChainOk() {
      && |leaves| > 0
      && (forall i :: 0 <= i < |leaves| ==> leaves[i] in heap && heap[leaves[i]].isLeaf)
      && (forall n {:trigger n in leaves} :: n in heap && heap[n].isLeaf ==> n in leaves)
      && heap[leaves[0]].lo == NegInf
      && heap[leaves[|leaves| - 1]].hi == PosInf && heap[leaves[|leaves| - 1]].next == null
      && (forall i :: 0 <= i < |leaves| - 1 ==> LinkOk(i))
      && (forall i :: 0 < i < |leaves| ==> heap[leaves[i]].lo.At?)
      && (forall i, j :: 0 < i < j < |leaves| ==> heap[leaves[i]].lo.key < heap[leaves[j]].lo.key)
    }

    ghost predicate LinkOk(i: nat)
      requires i + 1 < |leaves| && leaves[i] in heap && leaves[i + 1] in heap
    {
      && heap[leaves[i]].next == leaves[i + 1]
      && heap[leaves[i]].hi.At? && heap[leaves[i]].hi == heap[leaves[i + 1]].lo
    }

    ghost predicate LeafOk(n: Node<V>, contents: map<int, V>)
      requires n in heap
    {
      heap[n].Stores(contents)
    }

    ghost predicate ContentsOk(contents: map<int, V>) {
      forall n {:trigger LeafOk(n, contents)} :: n in heap && heap[n].isLeaf ==> LeafOk(n, contents)
    }

    /** Node capacity, waived for `full`; deletion cannot thin internal nodes. */
    ghost predicate FillAt(n: Node<V>, order: nat, full: Node?<V>)
      requires n in heap
    {
      && (n != full ==> |heap[n].keys| <= order)
      && (!heap[n].isLeaf ==> |heap[n].keys| >= if n == root then 1 else order / 2)
    }

    ghost predicate LooseAt(n: Node<V>, order: nat)
      requires n in heap
    {
      && |heap[n].keys| <= order
      && (!heap[n].isLeaf && n != root ==> |heap[n].keys| >= order / 2)
    }

    ghost predicate FillOk(order: nat, full: Node?<V>) {
      forall n {:trigger FillAt(n, order, full)} :: n in heap ==> FillAt(n, order, full)
    }

    ghost predicate Inv(order: nat, contents: map<int, V>, pl: Node?<V>, pr: Node?<V>, full: Node?<V>) {
      && order >= 3
      && Pending(pl, pr) && NodesOk(pl, pr) && ChainOk() && ContentsOk(contents) && FillOk(order, full)
    }
  }

  // -----------------------------------------------------------------
  // Splits
  // -----------------------------------------------------------------

  /** A new root over the two halves of the old one. */
  ghost function GrowRoot<V>(s: Shape<V>, key: int, right: Node<V>, top: Node<V>): Shape<V>
    requires s.root in s.heap && right in s.heap
  {
    var left := s.root;
    Shape(s.heap[left := s.heap[left].(parent := top)][right := s.heap[right].(parent := top)]
          [top := Cell(false, null, [key], [], null, [left, right], NegInf, PosInf, s.heap[left].level + 1)],
          top, s.leaves)
  }

  /** `right` becomes child `idx + 1` of `parent`, behind separator `key`. */
  ghost function Adopt<V>(s: Shape<V>, key: int, right: Node<V>, parent: Node<V>, idx: nat): Shape<V>
    requires right in s.heap && parent in s.heap && right != parent
    requires idx <= |s.heap[parent].keys| && idx < |s.heap[parent].children|
  {
    var p := s.heap[parent];
    s.(heap := s.heap[parent := p.(keys := InsertAt(p.keys, idx, key),
                                   children := InsertAt(p.children, idx + 1, right))]
       [right := s.heap[right].(parent := parent)])
  }

  /** The chain condition looks at intervals and links of leaves only. */
  lemma ChainFrame<V>(s: Shape<V>, t: Shape<V>)
    requires s.ChainOk() && t.leaves == s.leaves
    requires forall n :: n in s.heap && s.heap[n].isLeaf ==> n in t.heap && t.heap[n].isLeaf
    requires forall n :: n in s.heap && s.heap[n].isLeaf && n in t.heap ==>
                t.heap[n].next == s.heap[n].next && t.heap[n].lo == s.heap[n].lo && t.heap[n].hi == s.heap[n].hi
    requires forall n :: n in t.heap && t.heap[n].isLeaf ==> n in s.heap && s.heap[n].isLeaf
    ensures t.ChainOk()
  {
    forall i | 0 <= i < |t.leaves| - 1 ensures t.LinkOk(i) {
      assert s.LinkOk(i);
    }
  }

  /** Chain and contents depend on leaves alone, and not on parent pointers. */
  lemma LeavesUntouched<V>(s: Shape<V>, t: Shape<V>, contents: map<int, V>)
    requires s.ChainOk() && s.ContentsOk(contents)
    requires t.leaves == s.leaves
    requires forall n :: n in s.heap && s.heap[n].isLeaf ==>
                n in t.heap && t.heap[n] == s.heap[n].(parent := t.heap[n].parent)
    requires forall n :: n in t.heap && t.heap[n].isLeaf ==> n in s.heap && s.heap[n].isLeaf
    ensures t.ChainOk() && t.ContentsOk(contents)
  {
    ChainFrame(s, t);
    forall n | n in t.heap && t.heap[n].isLeaf ensures t.LeafOk(n, contents) {
      assert s.LeafOk(n, contents);
      forall k | k in contents && t.heap[n].Holds(k) ensures k in t.heap[n].keys {
        assert s.heap[n].Holds(k);
      }
    }
  }

  lemma GrowRootCell<V>(s: Shape<V>, key: int, right: Node<V>, top: Node<V>, n: Node<V>)
    requires s.Pending(s.root, right) && s.NodesOk(s.root, right) && top !in s.heap
    requires n in GrowRoot(s, key, right, top).heap
    ensures GrowRoot(s, key, right, top).CellOk(n)
  {
    var c := GrowRoot(s, key, right, top).heap[n];
    if n != top {
      assert s.CellOk(n);
      forall i | 0 <= i < |c.keys| ensures c.Holds(c.keys[i]) {
        assert s.heap[n].Holds(s.heap[n].keys[i]);
      }
    }
  }

  lemma GrowRootNodes<V>(s: Shape<V>, key: int, right: Node<V>, top: Node<V>)
    requires s.Pending(s.root, right) && s.NodesOk(s.root, right)
    requires s.heap[s.root].hi == At(key) && top !in s.heap
    ensures GrowRoot(s, key, right, top).NodesOk(null, null)
  {
    var t := GrowRoot(s, key, right, top);
    forall n | n in t.heap ensures t.CellOk(n) {
      GrowRootCell(s, key, right, top, n);
    }
    forall n | n in t.heap && !t.heap[n].isLeaf ensures t.ChildrenOk(n, null, null) {
      assert n != top ==> s.ChildrenOk(n, s.root, right);
      forall i | 0 <= i < |t.heap[n].children| ensures t.ChildOk(n, i, null, null) {
        assert n != top ==> s.ChildOk(n, i, s.root, right);
        assert n == top ==> i == 0 || i == 1;
      }
    }
    forall n | n in t.heap && n != t.root ensures t.ParentOk(n) {
      assert n != s.root && n != right ==> s.ParentOk(n);
      assert t.heap[top].children[0] == s.root && t.heap[top].children[1] == right;
    }
  }

  lemma GrowRootInv<V>(s: Shape<V>, order: nat, contents: map<int, V>, key: int, right: Node<V>, top: Node<V>)
    requires s.Inv(order, contents, s.root, right, null)
    requires !s.heap[s.root].isLeaf ==> |s.heap[s.root].keys| >= order / 2
    requires s.heap[s.root].hi == At(key) && top !in s.heap
    ensures GrowRoot(s, key, right, top).Inv(order, contents, null, null, null)
  {
    GrowRootNodes(s, key, right, top);
    var t := GrowRoot(s, key, right, top);
    LeavesUntouched(s, t, contents);
    forall n | n in t.heap ensures t.FillAt(n, order, null) {
      assert n != top ==> s.FillAt(n, order, null);
    }
  }

  /** The insertion index of the separator is the position of the split child. */
  lemma SplitChildAt<V>(s: Shape<V>, left: Node<V>, key: int, right: Node<V>, idx: nat)
    requires s.NodesOk(left, right) && s.Pending(left, right) && left in s.heap && s.heap[left].hi == At(key)
    requires s.ParentOk(left) && idx <= |s.heap[s.heap[left].parent].keys|
    requires forall j :: 0 <= j < idx ==> s.heap[s.heap[left].parent].keys[j] <= key
    requires forall j :: idx <= j < |s.heap[s.heap[left].parent].keys| ==> key < s.heap[s.heap[left].parent].keys[j]
    ensures s.ChildrenOk(s.heap[left].parent, left, right)
    ensures s.heap[s.heap[left].parent].children[idx] == left
  {
    var p := s.heap[left].parent;
    assert s.CellOk(p) && s.ChildrenOk(p, left, right);
    var j :| 0 <= j < |s.heap[p].children| && s.heap[p].children[j] == left;
    assert s.ChildOk(p, j, left, right);
    assert j < |s.heap[p].keys| ==> key < s.heap[p].keys[j];
    assert j > 0 ==> s.heap[p].keys[j - 1] <= key;
  }

  /** Siblings start at different separators, so they are different nodes. */
  lemma ChildrenDistinct<V>(s: Shape<V>, n: Node<V>, pl: Node?<V>, pr: Node?<V>)
    requires n in s.heap && !s.heap[n].isLeaf && s.heap[n].KeysOk() && s.ChildrenOk(n, pl, pr)
    ensures Distinct(s.heap[n].children)
  {
    var c := s.heap[n];
    forall i, j | 0 <= i < j < |c.children| ensures c.children[i] != c.children[j] {
      assert s.ChildOk(n, i, pl, pr) && s.ChildOk(n, j, pl, pr);
      assert c.SepLo(i) != c.SepLo(j);
    }
  }

  /** What holds when `right`, split off `left`, is about to join `left`'s parent. */
  ghost predicate Adoptable<V>(s: Shape<V>, left: Node<V>, key: int, right: Node<V>, parent: Node<V>, idx: nat) {
    && s.Pending(left, right) && s.NodesOk(left, right)
    && left in s.heap && s.heap[left].hi == At(key)
    && parent in s.heap && !s.heap[parent].isLeaf && right != parent
    && idx < |s.heap[parent].children| == |s.heap[parent].keys| + 1 && s.heap[parent].children[idx] == left
  }

  lemma AdoptKeys<V>(s: Shape<V>, left: Node<V>, key: int, right: Node<V>, parent: Node<V>, idx: nat)
    requires Adoptable(s, left, key, right, parent, idx)
    requires s.heap[parent].KeysOk() && s.ChildOk(parent, idx, left, right)
    ensures Adopt(s, key, right, parent, idx).heap[parent].KeysOk()
  {
    var p, q := s.heap[parent], Adopt(s, key, right, parent, idx).heap[parent];
    forall i | 0 <= i < |q.keys| ensures q.Holds(q.keys[i]) && q.lo != At(q.keys[i]) {
      if i != idx {
        assert p.Holds(p.keys[if i < idx then i else i - 1]);
      } else {
        assert idx > 0 ==> p.Holds(p.keys[idx - 1]);
        assert idx < |p.keys| ==> p.Holds(p.keys[idx]);
      }
    }
  }

  lemma AdoptChildren<V>(s: Shape<V>, left: Node<V>, key: int, right: Node<V>, parent: Node<V>, idx: nat, n: Node<V>)
    requires Adoptable(s, left, key, right, parent, idx)
    requires n in s.heap && !s.heap[n].isLeaf
    ensures Adopt(s, key, right, parent, idx).ChildrenOk(n, null, null)
  {
    var t := Adopt(s, key, right, parent, idx);
    assert s.CellOk(parent) && s.ChildrenOk(parent, left, right) && s.ChildrenOk(n, left, right);
    assert s.ChildOk(parent, idx, left, right);
    ChildrenDistinct(s, parent, left, right);
    forall i | 0 <= i < |t.heap[n].children| ensures t.ChildOk(n, i, null, null) {
      if n != parent || i <= idx {
        assert s.ChildOk(n, i, left, right);
      } else if i > idx + 1 {
        assert s.ChildOk(n, i - 1, left, right);
      }
    }
  }

  lemma AdoptParents<V>(s: Shape<V>, left: Node<V>, key: int, right: Node<V>, parent: Node<V>, idx: nat, n: Node<V>)
    requires Adoptable(s, left, key, right, parent, idx)
    requires n in s.heap && n != s.root
    ensures Adopt(s, key, right, parent, idx).ParentOk(n)
  {
    var t := Adopt(s, key, right, parent, idx);
    if n == right {
      assert t.heap[parent].children[idx + 1] == right;
    } else {
      assert s.ParentOk(n);
      if s.heap[n].parent == parent {
        var j :| 0 <= j < |s.heap[parent].children| && s.heap[parent].children[j] == n;
        assert t.heap[parent].children[if j <= idx then j else j + 1] == n;
      }
    }
  }

  lemma AdoptNodes<V>(s: Shape<V>, left: Node<V>, key: int, right: Node<V>, parent: Node<V>, idx: nat)
    requires Adoptable(s, left, key, right, parent, idx)
    ensures Adopt(s, key, right, parent, idx).NodesOk(null, null)
  {
    var t := Adopt(s, key, right, parent, idx);
    assert s.CellOk(parent) && s.ChildrenOk(parent, left, right);
    assert s.ChildOk(parent, idx, left, right);
    AdoptKeys(s, left, key, right, parent, idx);
    forall n | n in t.heap ensures t.CellOk(n) {
      assert s.CellOk(n);
    }
    forall n | n in t.heap && !t.heap[n].isLeaf ensures t.ChildrenOk(n, null, null) {
      AdoptChildren(s, left, key, right, parent, idx, n);
    }
    forall n | n in t.heap && n != t.root ensures t.ParentOk(n) {
      AdoptParents(s, left, key, right, parent, idx, n);
    }
  }

  lemma AdoptInv<V>(s: Shape<V>, order: nat, contents: map<int, V>, left: Node<V>, key: int, right: Node<V>,
                    parent: Node<V>, idx: nat)
    requires s.Inv(order, contents, left, right, null)
    requires Adoptable(s, left, key, right, parent, idx)
    ensures Adopt(s, key, right, parent, idx).Inv(order, contents, null, null, parent)
  {
    var t := Adopt(s, key, right, parent, idx);
    AdoptNodes(s, left, key, right, parent, idx);
    LeavesUntouched(s, t, contents);
    forall n | n in t.heap ensures t.FillAt(n, order, parent) {
      assert s.FillAt(n, order, null);
    }
  }

  /** `node` keeps the keys below `mid`; `half` takes those above and their children. */
  ghost function SplitInternal<V>(s: Shape<V>, node: Node<V>, mid: nat, half: Node<V>): Shape<V>
    requires node in s.heap && mid < |s.heap[node].keys| && |s.heap[node].children| == |s.heap[node].keys| + 1
  {
    var c := s.heap[node];
    var moved := c.children[mid + 1..];
    s.(heap := map n: Node<V> | n in s.heap.Keys + {half} ::
         if n == half then
           Cell(false, c.parent, c.keys[mid + 1..], [], null, moved, At(c.keys[mid]), c.hi, c.level)
         else if n == node then
           c.(keys := c.keys[..mid], children := c.children[..mid + 1], hi := At(c.keys[mid]))
         else if n in moved then
           s.heap[n].(parent := half)
         else
           s.heap[n])
  }

  ghost predicate Overfull<V>(s: Shape<V>, order: nat, node: Node<V>) {
    order >= 3 && node in s.heap && |s.heap[node].keys| == order + 1
  }

  lemma SplitInternalChildren<V>(s: Shape<V>, node: Node<V>, mid: nat, half: Node<V>, n: Node<V>)
    requires s.NodesOk(null, null) && node in s.heap && !s.heap[node].isLeaf && half !in s.heap
    requires mid < |s.heap[node].keys| && |s.heap[node].children| == |s.heap[node].keys| + 1
    requires n in SplitInternal(s, node, mid, half).heap && !SplitInternal(s, node, mid, half).heap[n].isLeaf
    ensures SplitInternal(s, node, mid, half).ChildrenOk(n, node, half)
  {
    var t := SplitInternal(s, node, mid, half);
    assert s.CellOk(node) && s.ChildrenOk(node, null, null);
    ChildrenDistinct(s, node, null, null);
    var o: Node<V> := if n == half then node else n;
    assert s.ChildrenOk(o, null, null);
    var moved := s.heap[node].children[mid + 1..];
    forall i | 0 <= i < |t.heap[n].children| ensures t.ChildOk(n, i, node, half) {
      var k := if n == half then i + mid + 1 else i;
      var x := s.heap[o].children[k];
      assert s.ChildOk(o, k, null, null) && t.heap[n].children[i] == x;
      if x in moved {
        var j :| mid + 1 <= j < |s.heap[node].children| && s.heap[node].children[j] == x;
        assert s.ChildOk(node, j, null, null);
      }
    }
  }

  lemma SplitInternalCell<V>(s: Shape<V>, node: Node<V>, mid: nat, half: Node<V>, n: Node<V>)
    requires s.NodesOk(null, null) && node in s.heap && !s.heap[node].isLeaf && half !in s.heap
    requires 0 < mid < |s.heap[node].keys| && |s.heap[node].children| == |s.heap[node].keys| + 1
    requires n in SplitInternal(s, node, mid, half).heap
    ensures SplitInternal(s, node, mid, half).CellOk(n)
  {
    var t := SplitInternal(s, node, mid, half);
    assert s.CellOk(node);
    var o: Node<V> := if n == half then node else n;
    assert s.CellOk(o);
    forall i | 0 <= i < |t.heap[n].keys|
      ensures t.heap[n].Holds(t.heap[n].keys[i])
      ensures !t.heap[n].isLeaf ==> t.heap[n].lo != At(t.heap[n].keys[i])
    {
      assert s.heap[o].Holds(s.heap[o].keys[if n == half then i + mid + 1 else i]);
    }
  }

  lemma SplitInternalNodes<V>(s: Shape<V>, node: Node<V>, mid: nat, half: Node<V>)
    requires s.NodesOk(null, null) && node in s.heap && !s.heap[node].isLeaf && half !in s.heap
    requires 0 < mid < |s.heap[node].keys| && |s.heap[node].children| == |s.heap[node].keys| + 1
    ensures SplitInternal(s, node, mid, half).NodesOk(node, half)
    ensures SplitInternal(s, node, mid, half).Pending(node, half)
  {
    var t := SplitInternal(s, node, mid, half);
    var c := s.heap[node];
    assert s.CellOk(node) && s.ChildrenOk(node, null, null);
    assert c.Holds(c.keys[mid]) && c.Holds(c.keys[0]);
    forall j | 0 <= j < |c.children| ensures c.children[j] != s.root && c.children[j] != node {
      assert s.ChildOk(node, j, null, null);
    }
    forall n | n in t.heap ensures t.CellOk(n) {
      SplitInternalCell(s, node, mid, half, n);
    }
    forall n | n in t.heap && !t.heap[n].isLeaf ensures t.ChildrenOk(n, node, half) {
      SplitInternalChildren(s, node, mid, half, n);
    }
    forall n | n in t.heap && n != t.root && n != half ensures t.ParentOk(n) {
      SplitInternalParents(s, node, mid, half, n);
    }
  }

  lemma SplitInternalParents<V>(s: Shape<V>, node: Node<V>, mid: nat, half: Node<V>, n: Node<V>)
    requires s.NodesOk(null, null) && node in s.heap && !s.heap[node].isLeaf && half !in s.heap
    requires mid < |s.heap[node].keys| && |s.heap[node].children| == |s.heap[node].keys| + 1
    requires n in s.heap && n != s.root
    ensures SplitInternal(s, node, mid, half).ParentOk(n)
  {
    var t := SplitInternal(s, node, mid, half);
    var c := s.heap[node];
    assert s.ParentOk(n) && s.ChildrenOk(node, null, null);
    assert forall j :: mid < j < |c.children| ==> c.children[j] == c.children[mid + 1..][j - mid - 1];
    if n in c.children[mid + 1..] {
      var j :| mid + 1 <= j < |c.children| && c.children[j] == n;
      assert s.ChildOk(node, j, null, null);
      assert t.heap[half].children[j - mid - 1] == n;
    } else if s.heap[n].parent == node {
      var j :| 0 <= j < |c.children| && c.children[j] == n;
      assert t.heap[node].children[j] == n;
    }
  }

  lemma SplitInternalInv<V>(s: Shape<V>, order: nat, contents: map<int, V>, node: Node<V>, half: Node<V>)
    requires s.Inv(order, contents, null, null, node)
    requires Overfull(s, order, node) && !s.heap[node].isLeaf && half !in s.heap
    requires |s.heap[node].children| == |s.heap[node].keys| + 1
    ensures SplitInternal(s, node, (order + 1) / 2, half).Inv(order, contents, node, half, null)
  {
    var t := SplitInternal(s, node, (order + 1) / 2, half);
    SplitInternalNodes(s, node, (order + 1) / 2, half);
    assert s.CellOk(node);
    LeavesUntouched(s, t, contents);
    forall n: Node<V> | n in t.heap ensures t.FillAt(n, order, null) {
      assert s.FillAt(if n == half then node else n, order, node);
    }
  }

  /** The upper half of `leaf` moves to `half`, linked in behind it. */
  ghost function SplitLeaf<V>(s: Shape<V>, leaf: Node<V>, mid: nat, half: Node<V>, at: nat): Shape<V>
    requires leaf in s.heap && mid < |s.heap[leaf].keys| == |s.heap[leaf].values| && at < |s.leaves|
  {
    var c := s.heap[leaf];
    Shape(s.heap[leaf := c.(keys := c.keys[..mid], values := c.values[..mid], next := half, hi := At(c.keys[mid]))]
          [half := Cell(true, c.parent, c.keys[mid..], c.values[mid..], c.next, [], At(c.keys[mid]), c.hi, 0)],
          s.root, InsertAt(s.leaves, at + 1, half))
  }

  ghost predicate LeafSplit<V>(s: Shape<V>, leaf: Node<V>, mid: nat, half: Node<V>, at: nat) {
    && leaf in s.heap && s.heap[leaf].isLeaf && half !in s.heap
    && 0 < mid < |s.heap[leaf].keys| == |s.heap[leaf].values|
    && at < |s.leaves| && s.leaves[at] == leaf
  }

  lemma SplitLeafCell<V>(s: Shape<V>, leaf: Node<V>, mid: nat, half: Node<V>, at: nat, n: Node<V>)
    requires s.NodesOk(null, null) && LeafSplit(s, leaf, mid, half, at)
    requires n in SplitLeaf(s, leaf, mid, half, at).heap
    ensures SplitLeaf(s, leaf, mid, half, at).CellOk(n)
  {
    var t := SplitLeaf(s, leaf, mid, half, at);
    var o: Node<V> := if n == half then leaf else n;
    assert s.CellOk(o) && s.CellOk(leaf) && s.CellOk(s.root);
    forall i | 0 <= i < |t.heap[n].keys| ensures t.heap[n].Holds(t.heap[n].keys[i]) {
      assert s.heap[o].Holds(s.heap[o].keys[if n == half then i + mid else i]);
      assert s.heap[leaf].Holds(s.heap[leaf].keys[mid]);
    }
  }

  lemma SplitLeafNodes<V>(s: Shape<V>, leaf: Node<V>, mid: nat, half: Node<V>, at: nat)
    requires s.NodesOk(null, null) && LeafSplit(s, leaf, mid, half, at)
    ensures SplitLeaf(s, leaf, mid, half, at).NodesOk(leaf, half)
    ensures SplitLeaf(s, leaf, mid, half, at).Pending(leaf, half)
  {
    var t := SplitLeaf(s, leaf, mid, half, at);
    var c := s.heap[leaf];
    assert s.CellOk(leaf) && c.Holds(c.keys[mid]) && c.Holds(c.keys[0]);
    forall n | n in t.heap ensures t.CellOk(n) {
      SplitLeafCell(s, leaf, mid, half, at, n);
    }
    forall n | n in t.heap && !t.heap[n].isLeaf ensures t.ChildrenOk(n, leaf, half) {
      assert s.ChildrenOk(n, null, null);
      forall i | 0 <= i < |t.heap[n].children| ensures t.ChildOk(n, i, leaf, half) {
        assert s.ChildOk(n, i, null, null);
      }
    }
    forall n | n in t.heap && n != t.root && n != half ensures t.ParentOk(n) {
      assert s.ParentOk(n);
    }
  }

  /** Position `i` of the new chain, in terms of the old one. */
  lemma SplitLeafAt<V>(s: Shape<V>, leaf: Node<V>, mid: nat, half: Node<V>, at: nat, i: nat)
    requires s.ChainOk() && LeafSplit(s, leaf, mid, half, at) && i <= |s.leaves|
    ensures |SplitLeaf(s, leaf, mid, half, at).leaves| == |s.leaves| + 1
    ensures var t := SplitLeaf(s, leaf, mid, half, at); var n := t.leaves[i];
      && n in t.heap && t.heap[n].isLeaf
      && (i < at ==> n == s.leaves[i] && t.heap[n] == s.heap[n])
      && (i == at ==> n == leaf)
      && (i == at + 1 ==> n == half)
      && (i > at + 1 ==> n == s.leaves[i - 1] && t.heap[n] == s.heap[n])
  {
    ChainDistinct(s);
    var o := if i <= at then i else i - 1;
    assert s.leaves[o] in s.heap && s.heap[s.leaves[o]].isLeaf;
  }

  lemma SplitLeafLink<V>(s: Shape<V>, leaf: Node<V>, mid: nat, half: Node<V>, at: nat, i: nat)
    requires s.ChainOk() && LeafSplit(s, leaf, mid, half, at) && i < |s.leaves|
    ensures var t := SplitLeaf(s, leaf, mid, half, at);
      t.leaves[i] in t.heap && t.leaves[i + 1] in t.heap && t.LinkOk(i)
  {
    SplitLeafAt(s, leaf, mid, half, at, i);
    SplitLeafAt(s, leaf, mid, half, at, i + 1);
    if i < at {
      assert s.LinkOk(i);
    } else if i > at {
      assert s.LinkOk(i - 1);
    }
  }

  lemma SplitLeafOrder<V>(s: Shape<V>, leaf: Node<V>, mid: nat, half: Node<V>, at: nat, i: nat, j: nat)
    requires s.ChainOk() && LeafSplit(s, leaf, mid, half, at) && s.heap[leaf].KeysOk()
    requires 0 < j <= |s.leaves| && i < j
    ensures var t := SplitLeaf(s, leaf, mid, half, at);
      && t.leaves[i] in t.heap && t.leaves[j] in t.heap && t.heap[t.leaves[j]].lo.At?
      && (i > 0 ==> t.heap[t.leaves[i]].lo.At? && t.heap[t.leaves[i]].lo.key < t.heap[t.leaves[j]].lo.key)
  {
    SplitLeafAt(s, leaf, mid, half, at, i);
    SplitLeafAt(s, leaf, mid, half, at, j);
    var c := s.heap[leaf];
    assert c.Holds(c.keys[mid]) && c.Holds(c.keys[0]);
    if at + 1 < |s.leaves| {
      assert s.LinkOk(at);
    }
  }

  lemma SplitLeafChain<V>(s: Shape<V>, leaf: Node<V>, mid: nat, half: Node<V>, at: nat)
    requires s.ChainOk() && LeafSplit(s, leaf, mid, half, at) && s.heap[leaf].KeysOk()
    ensures SplitLeaf(s, leaf, mid, half, at).ChainOk()
  {
    hide SplitLeaf, Shape.LinkOk;
    var t := SplitLeaf(s, leaf, mid, half, at);
    SplitLeafEnds(s, leaf, mid, half, at);
    forall i | 0 <= i < |t.leaves| ensures t.leaves[i] in t.heap && t.heap[t.leaves[i]].isLeaf {
      SplitLeafAt(s, leaf, mid, half, at, i);
    }
    forall n | n in t.heap && t.heap[n].isLeaf ensures n in t.leaves {
      SplitLeafMember(s, leaf, mid, half, at, n);
    }
    forall i | 0 <= i < |t.leaves| - 1 ensures t.LinkOk(i) {
      SplitLeafLink(s, leaf, mid, half, at, i);
    }
    forall i | 0 < i < |t.leaves| ensures t.heap[t.leaves[i]].lo.At? {
      SplitLeafOrder(s, leaf, mid, half, at, 0, i);
    }
    forall i, j | 0 < i < j < |t.leaves| ensures t.heap[t.leaves[i]].lo.key < t.heap[t.leaves[j]].lo.key {
      SplitLeafOrder(s, leaf, mid, half, at, i, j);
    }
  }

  lemma SplitLeafEnds<V>(s: Shape<V>, leaf: Node<V>, mid: nat, half: Node<V>, at: nat)
    requires s.ChainOk() && LeafSplit(s, leaf, mid, half, at)
    ensures var t := SplitLeaf(s, leaf, mid, half, at);
      && |t.leaves| == |s.leaves| + 1
      && t.leaves[0] in t.heap && t.heap[t.leaves[0]].lo == NegInf
      && t.leaves[|s.leaves|] in t.heap
      && t.heap[t.leaves[|s.leaves|]].hi == PosInf && t.heap[t.leaves[|s.leaves|]].next == null
  {
    SplitLeafAt(s, leaf, mid, half, at, 0);
    SplitLeafAt(s, leaf, mid, half, at, |s.leaves|);
  }

  lemma SplitLeafMember<V>(s: Shape<V>, leaf: Node<V>, mid: nat, half: Node<V>, at: nat, n: Node<V>)
    requires s.ChainOk() && LeafSplit(s, leaf, mid, half, at)
    requires n in SplitLeaf(s, leaf, mid, half, at).heap && SplitLeaf(s, leaf, mid, half, at).heap[n].isLeaf
    ensures n in SplitLeaf(s, leaf, mid, half, at).leaves
  {
    var t := SplitLeaf(s, leaf, mid, half, at);
    if n == half {
      assert t.leaves[at + 1] == half;
    } else {
      assert n in s.leaves;
      var j :| 0 <= j < |s.leaves| && s.leaves[j] == n;
      assert t.leaves[if j <= at then j else j + 1] == n;
    }
  }

  lemma ChainDistinct<V>(s: Shape<V>)
    requires s.ChainOk()
    ensures Distinct(s.leaves)
  {
    forall i, j | 0 <= i < j < |s.leaves| ensures s.leaves[i] != s.leaves[j] {
      assert s.heap[s.leaves[j]].lo.At?;
      assert i > 0 ==> s.heap[s.leaves[i]].lo.key < s.heap[s.leaves[j]].lo.key;
    }
  }

  lemma SplitLeafInv<V>(s: Shape<V>, order: nat, contents: map<int, V>, leaf: Node<V>, half: Node<V>, at: nat)
    requires s.Inv(order, contents, null, null, leaf) && Overfull(s, order, leaf)
    requires LeafSplit(s, leaf, (order + 1) / 2, half, at)
    ensures SplitLeaf(s, leaf, (order + 1) / 2, half, at).Inv(order, contents, leaf, half, null)
  {
    var mid := (order + 1) / 2;
    var t := SplitLeaf(s, leaf, mid, half, at);
    assert s.CellOk(leaf);
    SplitLeafNodes(s, leaf, mid, half, at);
    SplitLeafChain(s, leaf, mid, half, at);
    SplitLeafContents(s, contents, leaf, mid, half, at);
    forall n: Node<V> | n in t.heap ensures t.FillAt(n, order, null) {
      assert s.FillAt(if n == half then leaf else n, order, leaf);
    }
  }

  lemma SplitLeafContents<V>(s: Shape<V>, contents: map<int, V>, leaf: Node<V>, mid: nat, half: Node<V>, at: nat)
    requires s.ContentsOk(contents) && LeafSplit(s, leaf, mid, half, at) && s.heap[leaf].KeysOk()
    ensures SplitLeaf(s, leaf, mid, half, at).ContentsOk(contents)
  {
    var t := SplitLeaf(s, leaf, mid, half, at);
    var c := s.heap[leaf];
    assert c.Holds(c.keys[mid]);
    forall n | n in t.heap && t.heap[n].isLeaf ensures t.LeafOk(n, contents) {
      var o: Node<V> := if n == half then leaf else n;
      assert s.LeafOk(o, contents);
      forall k | k in contents && t.heap[n].Holds(k) ensures k in t.heap[n].keys {
        assert s.heap[o].Holds(k);
        var j :| 0 <= j < |s.heap[o].keys| && s.heap[o].keys[j] == k;
        assert t.heap[n].keys[if n == half then j - mid else j] == k;
      }
    }
  }

  // -----------------------------------------------------------------
  // Changes to one leaf
  // -----------------------------------------------------------------

  /** Leaves earlier in the chain end before later ones begin. */
  lemma ChainOrder<V>(s: Shape<V>, k: int)
    requires s.ChainOk()
    ensures forall i, j :: 0 <= i < j < |s.leaves| ==> !(s.heap[s.leaves[i]].Holds(k) && s.heap[s.leaves[j]].Holds(k))
  {
    forall i, j | 0 <= i < j < |s.leaves|
      ensures !(s.heap[s.leaves[i]].Holds(k) && s.heap[s.leaves[j]].Holds(k))
    {
      assert s.LinkOk(i);
    }
  }

  /** A key lies in the interval of one leaf only. */
  lemma LeafUnique<V>(s: Shape<V>, a: Node<V>, b: Node<V>, k: int)
    requires s.ChainOk() && a in s.heap && b in s.heap
    requires s.heap[a].isLeaf && s.heap[b].isLeaf && s.heap[a].Holds(k) && s.heap[b].Holds(k)
    ensures a == b
  {
    assert a in s.leaves && b in s.leaves;
    ChainOrder(s, k);
  }

  /** New keys and values for one leaf. */
  ghost function SetLeaf<V>(s: Shape<V>, leaf: Node<V>, keys: seq<int>, values: seq<V>): Shape<V>
    requires leaf in s.heap
  {
    s.(heap := s.heap[leaf := s.heap[leaf].(keys := keys, values := values)])
  }

  lemma SetLeafNodes<V>(s: Shape<V>, leaf: Node<V>, keys: seq<int>, values: seq<V>)
    requires s.NodesOk(null, null) && leaf in s.heap && s.heap[leaf].isLeaf
    requires SetLeaf(s, leaf, keys, values).heap[leaf].KeysOk()
    ensures SetLeaf(s, leaf, keys, values).NodesOk(null, null)
  {
    var t := SetLeaf(s, leaf, keys, values);
    forall n | n in t.heap ensures t.CellOk(n) {
      assert s.CellOk(n);
    }
    forall n | n in t.heap && !t.heap[n].isLeaf ensures t.ChildrenOk(n, null, null) {
      assert s.ChildrenOk(n, null, null);
      forall i | 0 <= i < |t.heap[n].children| ensures t.ChildOk(n, i, null, null) {
        assert s.ChildOk(n, i, null, null);
      }
    }
    forall n | n in t.heap && n != t.root ensures t.ParentOk(n) {
      assert s.ParentOk(n);
    }
  }

  /** Changing the entry of one key, in the leaf of that key, keeps the invariant. */
  lemma SetLeafInv<V>(s: Shape<V>, order: nat, contents: map<int, V>, contents': map<int, V>, leaf: Node<V>,
                      key: int, keys: seq<int>, values: seq<V>)
    requires s.Inv(order, contents, null, null, null)
    requires leaf in s.heap && s.heap[leaf].isLeaf && s.heap[leaf].Holds(key)
    requires SetLeaf(s, leaf, keys, values).heap[leaf].KeysOk() && |keys| <= order + 1
    requires SetLeaf(s, leaf, keys, values).LeafOk(leaf, contents')
    requires forall k :: k != key ==> (k in contents <==> k in contents')
    requires forall k :: k != key && k in contents ==> contents[k] == contents'[k]
    ensures SetLeaf(s, leaf, keys, values).Inv(order, contents', null, null, if |keys| <= order then null else leaf)
  {
    var t := SetLeaf(s, leaf, keys, values);
    var full: Node?<V> := if |keys| <= order then null else leaf;
    SetLeafNodes(s, leaf, keys, values);
    forall n | n in t.heap ensures t.FillAt(n, order, full) {
      assert s.FillAt(n, order, null);
    }
    ChainFrame(s, t);
    forall n | n in t.heap && t.heap[n].isLeaf ensures t.LeafOk(n, contents') {
      if n != leaf {
        OtherLeafOk(s, contents, contents', leaf, key, n);
      }
    }
  }

  /** The three changes the tree makes to a leaf: replace, insert, remove. */
  ghost predicate SlotOf(keys: seq<int>, key: int, slot: nat) {
    && slot <= |keys|
    && (forall j :: 0 <= j < slot ==> keys[j] < key)
    && (forall j :: slot <= j < |keys| ==> key <= keys[j])
  }

  lemma LeafReplace<V>(c: Cell<V>, contents: map<int, V>, key: int, slot: nat, value: V)
    requires c.isLeaf && c.KeysOk() && c.Stores(contents)
    requires slot < |c.keys| && c.keys[slot] == key
    ensures c.(values := c.values[slot := value]).KeysOk()
    ensures c.(values := c.values[slot := value]).Stores(contents[key := value])
  {
    var d := c.(values := c.values[slot := value]);
    forall i | 0 <= i < |d.keys| ensures d.Holds(d.keys[i]) {
      assert c.Holds(c.keys[i]);
    }
    forall k | k in contents[key := value] && d.Holds(k) ensures k in d.keys {
      assert c.Holds(k);
    }
  }

  ghost function PutCell<V>(c: Cell<V>, slot: nat, key: int, value: V): Cell<V>
    requires slot <= |c.keys| == |c.values|
  {
    c.(keys := InsertAt(c.keys, slot, key), values := InsertAt(c.values, slot, value))
  }

  ghost function DropCell<V>(c: Cell<V>, slot: nat): Cell<V>
    requires slot < |c.keys| == |c.values|
  {
    c.(keys := RemoveAt(c.keys, slot), values := RemoveAt(c.values, slot))
  }

  lemma PutKeysOk<V>(c: Cell<V>, contents: map<int, V>, key: int, slot: nat, value: V)
    requires c.isLeaf && c.KeysOk() && c.Stores(contents) && c.Holds(key)
    requires SlotOf(c.keys, key, slot) && key !in contents
    ensures PutCell(c, slot, key, value).KeysOk()
  {
    var d := PutCell(c, slot, key, value);
    forall j | slot <= j < |c.keys| ensures key < c.keys[j] {
      assert c.keys[j] in contents;
    }
    forall i | 0 <= i < |d.keys| ensures d.Holds(d.keys[i]) {
      assert i != slot ==> c.Holds(c.keys[if i < slot then i else i - 1]);
    }
  }

  lemma PutStores<V>(c: Cell<V>, contents: map<int, V>, key: int, slot: nat, value: V)
    requires c.Stores(contents) && slot <= |c.keys| && key !in contents
    ensures PutCell(c, slot, key, value).Stores(contents[key := value])
  {
    var d := PutCell(c, slot, key, value);
    forall i | 0 <= i < |d.keys|
      ensures d.keys[i] in contents[key := value] && contents[key := value][d.keys[i]] == d.values[i]
    {
      assert i != slot ==> c.keys[if i < slot then i else i - 1] in contents;
    }
    forall k | k in contents[key := value] && d.Holds(k) ensures k in d.keys {
      if k == key {
        assert d.keys[slot] == key;
      } else {
        assert c.Holds(k);
        var j :| 0 <= j < |c.keys| && c.keys[j] == k;
        assert d.keys[if j < slot then j else j + 1] == k;
      }
    }
  }

  lemma DropKeysOk<V>(c: Cell<V>, slot: nat)
    requires c.isLeaf && c.KeysOk() && slot < |c.keys|
    ensures DropCell(c, slot).KeysOk()
  {
    var d := DropCell(c, slot);
    forall i | 0 <= i < |d.keys| ensures d.Holds(d.keys[i]) {
      assert c.Holds(c.keys[if i < slot then i else i + 1]);
    }
  }

  lemma DropStores<V>(c: Cell<V>, contents: map<int, V>, key: int, slot: nat)
    requires c.Stores(contents) && StrictlySorted(c.keys) && slot < |c.keys| && c.keys[slot] == key
    ensures DropCell(c, slot).Stores(contents - {key})
  {
    var d := DropCell(c, slot);
    forall i | 0 <= i < |d.keys|
      ensures d.keys[i] in contents - {key} && (contents - {key})[d.keys[i]] == d.values[i]
    {
      var o := if i < slot then i else i + 1;
      assert d.keys[i] == c.keys[o] && d.values[i] == c.values[o];
    }
    forall k | k in contents - {key} && d.Holds(k) ensures k in d.keys {
      assert c.Holds(k);
      DropKeeps(c.keys, slot, k);
    }
  }

  lemma DropKeeps(keys: seq<int>, slot: nat, k: int)
    requires slot < |keys| && k in keys && k != keys[slot]
    ensures k in RemoveAt(keys, slot)
  {
    var j :| 0 <= j < |keys| && keys[j] == k;
    assert RemoveAt(keys, slot)[if j < slot then j else j - 1] == k;
  }

  lemma OtherLeafOk<V>(s: Shape<V>, contents: map<int, V>, contents': map<int, V>, leaf: Node<V>, key: int, n: Node<V>)
    requires s.NodesOk(null, null) && s.ChainOk() && s.ContentsOk(contents)
    requires leaf in s.heap && s.heap[leaf].isLeaf && s.heap[leaf].Holds(key)
    requires n in s.heap && s.heap[n].isLeaf && n != leaf
    requires forall k :: k != key ==> (k in contents <==> k in contents')
    requires forall k :: k != key && k in contents ==> contents[k] == contents'[k]
    ensures s.LeafOk(n, contents')
  {
    assert s.LeafOk(n, contents) && s.CellOk(n);
    if s.heap[n].Holds(key) {
      LeafUnique(s, n, leaf, key);
    }
  }

  // -----------------------------------------------------------------
  // Collapsing the root
  // -----------------------------------------------------------------

  /** The invariant without the lower bound on the keys of the root. */
  ghost predicate Loose<V>(s: Shape<V>, order: nat, contents: map<int, V>) {
    && order >= 3
    && s.NodesOk(null, null) && s.ChainOk() && s.ContentsOk(contents)
    && forall n {:trigger s.LooseAt(n, order)} :: n in s.heap ==> s.LooseAt(n, order)
  }

  ghost function Collapse<V>(s: Shape<V>): Shape<V>
    requires s.root in s.heap && |s.heap[s.root].children| > 0 && s.heap[s.root].children[0] in s.heap
  {
    var c := s.heap[s.root].children[0];
    Shape(s.heap[c := s.heap[c].(parent := null)] - {s.root}, c, s.leaves)
  }

  lemma CollapseNodes<V>(s: Shape<V>)
    requires s.NodesOk(null, null) && !s.heap[s.root].isLeaf && |s.heap[s.root].keys| == 0
    ensures |s.heap[s.root].children| == 1
    ensures s.heap[s.root].children[0] in s.heap && s.heap[s.root].children[0] != s.root
    ensures Collapse(s).NodesOk(null, null)
  {
    assert s.CellOk(s.root) && s.ChildrenOk(s.root, null, null) && s.ChildOk(s.root, 0, null, null);
    var t := Collapse(s);
    forall n | n in t.heap ensures t.CellOk(n) && (n != t.root ==> t.ParentOk(n)) {
      assert s.CellOk(n) && s.ParentOk(n);
      var p := s.heap[n].parent;
      assert s.CellOk(p) && s.ChildrenOk(p, null, null);
      var i :| 0 <= i < |s.heap[p].children| && s.heap[p].children[i] == n;
      assert s.ChildOk(p, i, null, null);
    }
    forall n | n in t.heap && !t.heap[n].isLeaf ensures t.ChildrenOk(n, null, null) {
      assert s.ChildrenOk(n, null, null);
      forall i | 0 <= i < |t.heap[n].children| ensures t.ChildOk(n, i, null, null) {
        assert s.ChildOk(n, i, null, null);
      }
    }
  }

  lemma CollapseLoose<V>(s: Shape<V>, order: nat, contents: map<int, V>)
    requires Loose(s, order, contents) && !s.heap[s.root].isLeaf && |s.heap[s.root].keys| == 0
    requires |s.heap[s.root].children| == 1
    requires s.heap[s.root].children[0] in s.heap && s.heap[s.root].children[0] != s.root
    ensures Loose(Collapse(s), order, contents)
  {
    CollapseNodes(s);
    var t := Collapse(s);
    LeavesUntouched(s, t, contents);
    forall n | n in t.heap ensures t.LooseAt(n, order) {
      assert s.LooseAt(n, order);
    }
  }

  lemma LooseIsInv<V>(s: Shape<V>, order: nat, contents: map<int, V>)
    requires s.root in s.heap && (s.heap[s.root].isLeaf || |s.heap[s.root].keys| > 0)
    ensures Loose(s, order, contents) <==> s.Inv(order, contents, null, null, null)
  {
    if Loose(s, order, contents) {
      forall n | n in s.heap ensures s.FillAt(n, order, null) {
        assert s.LooseAt(n, order);
      }
    }
    if s.Inv(order, contents, null, null, null) {
      forall n | n in s.heap ensures s.LooseAt(n, order) {
        assert s.FillAt(n, order, null);
      }
    }
  }

  // -----------------------------------------------------------------
  // Leaf order and height
  // -----------------------------------------------------------------

  /** The leaves below `n`, read off the tree from left to right. */
  ghost function LeavesUnder<V>(s: Shape<V>, n: Node<V>): seq<Node<V>>
    requires s.NodesOk(null, null) && n in s.heap
    decreases s.heap[n].level, |s.heap[n].children| + 1
  {
    if s.heap[n].isLeaf then [n] else LeavesFrom(s, n, 0)
  }

  ghost function LeavesFrom<V>(s: Shape<V>, n: Node<V>, i: nat): seq<Node<V>>
    requires s.NodesOk(null, null) && n in s.heap && !s.heap[n].isLeaf && i <= |s.heap[n].children|
    decreases s.heap[n].level, |s.heap[n].children| - i
  {
    if i == |s.heap[n].children| then []
    else
      assert s.ChildrenOk(n, null, null) && s.ChildOk(n, i, null, null);
      LeavesUnder(s, s.heap[n].children[i]) + LeavesFrom(s, n, i + 1)
  }

  /** `leaves[a..b]` are the leaves of the key interval [lo, hi). */
  ghost predicate Segment<V>(s: Shape<V>, a: nat, b: nat, lo: Bound, hi: Bound) {
    && a < b <= |s.leaves| && s.leaves[a] in s.heap && s.leaves[b - 1] in s.heap
    && s.heap[s.leaves[a]].lo == lo && s.heap[s.leaves[b - 1]].hi == hi
  }

  lemma SegmentsMeet<V>(s: Shape<V>, a: nat, m: nat, m': nat, b: nat, lo: Bound, mid: Bound, hi: Bound)
    requires s.ChainOk() && mid.At?
    requires Segment(s, a, m, lo, mid) && Segment(s, m', b, mid, hi)
    ensures m == m'
  {
    assert m < |s.leaves|;
    assert s.LinkOk(m - 1);
    assert m' > 0;
  }

  lemma {:induction false} LeavesUnderSegment<V>(s: Shape<V>, n: Node<V>) returns (a: nat, b: nat)
    requires s.NodesOk(null, null) && s.ChainOk() && n in s.heap
    ensures Segment(s, a, b, s.heap[n].lo, s.heap[n].hi)
    ensures LeavesUnder(s, n) == s.leaves[a..b]
    decreases s.heap[n].level, |s.heap[n].children| + 1
  {
    assert s.CellOk(n);
    if s.heap[n].isLeaf {
      assert n in s.leaves;
      a :| 0 <= a < |s.leaves| && s.leaves[a] == n;
      b := a + 1;
    } else {
      assert s.ChildrenOk(n, null, null);
      a, b := LeavesFromSegment(s, n, 0);
    }
  }

  lemma {:induction false} LeavesFromSegment<V>(s: Shape<V>, n: Node<V>, i: nat) returns (a: nat, b: nat)
    requires s.NodesOk(null, null) && s.ChainOk() && n in s.heap && !s.heap[n].isLeaf && s.ChildrenOk(n, null, null)
    requires i < |s.heap[n].children|
    ensures Segment(s, a, b, s.heap[n].SepLo(i), s.heap[n].hi)
    ensures LeavesFrom(s, n, i) == s.leaves[a..b]
    decreases s.heap[n].level, |s.heap[n].children| - i
  {
    assert s.ChildOk(n, i, null, null);
    var m;
    a, m := LeavesUnderSegment(s, s.heap[n].children[i]);
    if i + 1 == |s.heap[n].children| {
      b := m;
      assert LeavesFrom(s, n, i + 1) == [];
    } else {
      var m';
      m', b := LeavesFromSegment(s, n, i + 1);
      SegmentsMeet(s, a, m, m', b, s.heap[n].SepLo(i), s.heap[n].SepHi(i), s.heap[n].hi);
      assert s.leaves[a..m] + s.leaves[m..b] == s.leaves[a..b];
    }
  }

  /** Following `next` from the leftmost leaf visits the leaves of the tree in order. */
  lemma ChainIsTreeOrder<V>(s: Shape<V>)
    requires s.NodesOk(null, null) && s.ChainOk()
    ensures LeavesUnder(s, s.root) == s.leaves
  {
    var a, b := LeavesUnderSegment(s, s.root);
    assert a == 0;
    assert b < |s.leaves| ==> s.LinkOk(b - 1);
    assert s.leaves[0..|s.leaves|] == s.leaves;
  }

  ghost function Pow(b: nat, e: nat): nat {
    if e == 0 then 1 else b * Pow(b, e - 1)
  }

  lemma MulGrows(a: nat, b: nat, p: nat)
    requires a <= b
    ensures a * p <= b * p
  {
  }

  /** A node of level `h` has at least (order/2 + 1)^h leaves below it. */
  lemma {:induction false} ManyLeaves<V>(s: Shape<V>, order: nat, n: Node<V>)
    requires s.NodesOk(null, null) && s.FillOk(order, null) && n in s.heap && n != s.root
    ensures |LeavesUnder(s, n)| >= Pow(order / 2 + 1, s.heap[n].level)
    decreases s.heap[n].level, |s.heap[n].children| + 1
  {
    assert s.CellOk(n) && s.FillAt(n, order, null);
    if !s.heap[n].isLeaf {
      ManyLeavesFrom(s, order, n, 0);
      var p := Pow(order / 2 + 1, s.heap[n].level - 1);
      MulGrows(order / 2 + 1, |s.heap[n].children|, p);
    }
  }

  lemma {:induction false} ManyLeavesFrom<V>(s: Shape<V>, order: nat, n: Node<V>, i: nat)
    requires s.NodesOk(null, null) && s.FillOk(order, null) && n in s.heap && !s.heap[n].isLeaf
    requires s.heap[n].level > 0 && i <= |s.heap[n].children|
    ensures |LeavesFrom(s, n, i)| >= (|s.heap[n].children| - i) * Pow(order / 2 + 1, s.heap[n].level - 1)
    decreases s.heap[n].level, |s.heap[n].children| - i
  {
    if i < |s.heap[n].children| {
      assert s.ChildrenOk(n, null, null) && s.ChildOk(n, i, null, null);
      ManyLeaves(s, order, s.heap[n].children[i]);
      ManyLeavesFrom(s, order, n, i + 1);
      var p := Pow(order / 2 + 1, s.heap[n].level - 1);
      assert (|s.heap[n].children| - i) * p == p + (|s.heap[n].children| - (i + 1)) * p;
    }
  }

  /** The height bound: a tree whose root is internal has at least
      2 * (order/2 + 1)^(level - 1) leaves. */
  lemma HeightBound<V>(s: Shape<V>, order: nat)
    requires s.NodesOk(null, null) && s.ChainOk() && s.FillOk(order, null)
    ensures s.heap[s.root].isLeaf <==> s.heap[s.root].level == 0
    ensures s.heap[s.root].level > 0 ==>
              |s.leaves| >= 2 * Pow(order / 2 + 1, s.heap[s.root].level - 1)
  {
    ChainIsTreeOrder(s);
    assert s.CellOk(s.root) && s.FillAt(s.root, order, null);
    if !s.heap[s.root].isLeaf {
      ManyLeavesFrom(s, order, s.root, 0);
      var p := Pow(order / 2 + 1, s.heap[s.root].level - 1);
      MulGrows(2, |s.heap[s.root].children|, p);
    }
  }

  lemma ChildrenAlive<V>(s: Shape<V>, n: Node<V>)
    requires s.NodesOk(null, null) && n in s.heap && !s.heap[n].isLeaf
    ensures forall c :: c in s.heap[n].children ==> c in s.heap && c != n
  {
    assert s.ChildrenOk(n, null, null);
    forall c | c in s.heap[n].children ensures c in s.heap && c != n {
      var i :| 0 <= i < |s.heap[n].children| && s.heap[n].children[i] == c;
      assert s.ChildOk(n, i, null, null);
    }
  }

  lemma ParentOfSplit<V>(s: Shape<V>, left: Node<V>, right: Node<V>, order: nat)
    requires s.Pending(left, right) && s.NodesOk(left, right) && s.FillOk(order, null) && left in s.heap
    requires s.heap[left].parent != null
    ensures var p := s.heap[left].parent;
      && s.ParentOk(left) && p in s.heap && !s.heap[p].isLeaf && p != right && StrictlySorted(s.heap[p].keys)
      && |s.heap[p].children| == |s.heap[p].keys| + 1 && |s.heap[p].keys| <= order
      && s.heap[left].level < s.heap[p].level <= s.heap[s.root].level
  {
    assert s.ParentOk(left);
    var p := s.heap[left].parent;
    assert s.CellOk(p) && s.ChildrenOk(p, left, right) && s.FillAt(p, order, null);
    var i :| 0 <= i < |s.heap[p].children| && s.heap[p].children[i] == left;
    assert s.ChildOk(p, i, left, right);
  }

  lemma NotFull<V>(s: Shape<V>, order: nat, n: Node<V>)
    requires s.FillOk(order, n) && n in s.heap && |s.heap[n].keys| <= order
    ensures s.FillOk(order, null)
  {
    forall m | m in s.heap ensures s.FillAt(m, order, null) {
      assert s.FillAt(m, order, n);
    }
  }

  // -----------------------------------------------------------------
  // The classes
  // -----------------------------------------------------------------

  /** The sequence with the (only) occurrence of a key taken out. */
  ghost function Without(s: seq<int>, key: int): seq<int> {
    if key in s then RemoveAt(s, IndexOf(s, key)) else s
  }

  lemma WithoutAt(s: seq<int>, i: nat)
    requires StrictlySorted(s) && i < |s|
    ensures Without(s, s[i]) == RemoveAt(s, i)
  {
    assert s[IndexOf(s, s[i])] == s[i];
  }

  /** What is left of the keys of a leaf when a scan deletes, as it goes, the keys
      outside `keep`: the key after a deleted one slides under the cursor and is
      passed over. */
  ghost function Skim(keys: seq<int>, keep: set<int>): seq<int> {
    if keys == [] then []
    else if keys[0] in keep then [keys[0]] + Skim(keys[1..], keep)
    else if |keys| == 1 then []
    else [keys[1]] + Skim(keys[2..], keep)
  }

  /** The scan removes every key it was meant to remove exactly if it never
      comes upon two such keys in a row. */
  lemma {:induction false} SkimCompleteExactly(keys: seq<int>, keep: set<int>)
    requires StrictlySorted(keys)
    ensures (forall k :: k in Skim(keys, keep) ==> k in keep)
            <==> forall i :: 0 <= i < |keys| - 1 ==> keys[i] in keep || keys[i + 1] in keep
    decreases |keys|
  {
    if |keys| >= 2 {
      if keys[0] in keep {
        SkimCompleteExactly(keys[1..], keep);
        assert forall i :: 0 < i < |keys| ==> keys[i] == keys[1..][i - 1];
        assert forall k :: k in Skim(keys, keep) <==> k == keys[0] || k in Skim(keys[1..], keep);
      } else {
        SkimCompleteExactly(keys[2..], keep);
        assert forall i :: 1 < i < |keys| ==> keys[i] == keys[2..][i - 2];
        assert forall k :: k in Skim(keys, keep) <==> k == keys[1] || k in Skim(keys[2..], keep);
      }
    }
  }

  /** `_Leaf` and `_Internal` of the source, told apart by `isLeaf`. */
  class Node<V> {
    const isLeaf: bool
    var parent: Node?<V>
    var keys: seq<int>
    var values: seq<V>          // leaf only
    var next: Node?<V>          // leaf only
    var children: seq<Node<V>>  // internal only
    ghost var lo: Bound
    ghost var hi: Bound
    ghost var level: nat

    constructor (isLeaf: bool)
      ensures Image() == Cell(isLeaf, null, [], [], null, [], NegInf, PosInf, 0)
    {
      this.isLeaf := isLeaf;
      parent, next, keys, values, children := null, null, [], [], [];
      lo, hi, level := NegInf, PosInf, 0;
    }

    /** A node whose fields are filled in at once. */
    constructor Filled(isLeaf: bool, keys: seq<int>, values: seq<V>, children: seq<Node<V>>,
                       next: Node?<V>, parent: Node?<V>, ghost lo: Bound, ghost hi: Bound, ghost level: nat)
      ensures Image() == Cell(isLeaf, parent, keys, values, next, children, lo, hi, level)
    {
      this.isLeaf := isLeaf;
      this.parent, this.next, this.keys, this.values, this.children := parent, next, keys, values, children;
      this.lo, this.hi, this.level := lo, hi, level;
    }

    /** What a split leaves in the old node. */
    method Shrink(keys: seq<int>, values: seq<V>, children: seq<Node<V>>, next: Node?<V>, ghost hi: Bound)
      modifies this
      ensures Image() == old(Image()).(keys := keys, values := values, children := children, next := next, hi := hi)
    {
      this.keys, this.values, this.children, this.next, this.hi := keys, values, children, next, hi;
    }

    ghost function Image(): Cell<V>
      reads this
    {
      Cell(isLeaf, parent, keys, values, next, children, lo, hi, level)
    }

    /** Index of the child to descend into. */
    method Traverse(key: int) returns (i: nat)
      requires StrictlySorted(keys)
      ensures i <= |keys|
      ensures forall j :: 0 <= j < i ==> keys[j] <= key
      ensures forall j :: i <= j < |keys| ==> key < keys[j]
    {
      var lo, hi := 0, |keys|;
      while lo < hi
        invariant 0 <= lo <= hi <= |keys|
        invariant forall j :: 0 <= j < lo ==> keys[j] <= key
        invariant forall j :: hi <= j < |keys| ==> key < keys[j]
      {
        var mid := (lo + hi) / 2;
        if keys[mid] <= key {
          lo := mid + 1;
        } else {
          hi := mid;
        }
      }
      i := lo;
    }

    /** Insertion index of a separator: the position of the child left of it. */
    method TraverseLt(key: int) returns (i: nat)
      requires StrictlySorted(keys)
      ensures i <= |keys|
      ensures forall j :: 0 <= j < i ==> keys[j] <= key
      ensures forall j :: i <= j < |keys| ==> key < keys[j]
    {
      var lo, hi := 0, |keys|;
      while lo < hi
        invariant 0 <= lo <= hi <= |keys|
        invariant forall j :: 0 <= j < lo ==> keys[j] <= key
        invariant forall j :: hi <= j < |keys| ==> key < keys[j]
      {
        var mid := (lo + hi) / 2;
        if key < keys[mid] {
          hi := mid;
        } else {
          lo := mid + 1;
        }
      }
      i := lo;
    }
  }

  class BPlusTree<V> {
    const order: nat
    var root: Node<V>
    var size: nat
    ghost var nodes: set<Node<V>>
    ghost var leaves: seq<Node<V>>     // the leaf chain
    ghost var contents: map<int, V>    // what the tree stores
    ghost var created: nat             // number of key-creating inserts so far

    /** The node heap below this tree. */
    ghost function View(): Shape<V>
      reads this`root, this`nodes, this`leaves, nodes
    {
      Shape(map n: Node<V> | n in nodes :: n.Image(), root, leaves)
    }

    lemma ViewIs(t: Shape<V>)
      requires t.heap.Keys == nodes && t.root == root && t.leaves == leaves
      requires forall n :: n in nodes ==> t.heap[n] == n.Image()
      ensures View() == t
    {
      assert View().heap == t.heap;
    }

    ghost predicate Between(pl: Node?<V>, pr: Node?<V>, full: Node?<V>)
      reads this`root, this`nodes, this`leaves, this`contents, nodes
    {
      View().Inv(order, contents, pl, pr, full)
    }

    ghost predicate Valid()
      reads this, nodes
    {
      Between(null, null, null) && size == |contents| && |leaves| <= 1 + created
    }

    lemma Opened(pl: Node?<V>, pr: Node?<V>, full: Node?<V>)
      ensures Between(pl, pr, full) == View().Inv(order, contents, pl, pr, full)
    {
    }

    constructor (order: nat)
      requires order >= 3
      ensures Valid() && fresh(nodes)
      ensures this.order == order && contents == map[] && created == 0
    {
      this.order := order;
      var leaf := new Node<V>(true);
      root := leaf;
      size := 0;
      nodes, leaves, contents, created := {leaf}, [leaf], map[], 0;
    }

    method Descend(key: int) returns (leaf: Node<V>)
      requires View().NodesOk(null, null)
      ensures leaf in nodes && leaf.isLeaf && leaf.Image().Holds(key)
    {
      ghost var s := View();
      var node := root;
      while !node.isLeaf
        invariant node in nodes && node.Image().Holds(key)
        decreases node.level
      {
        assert s.CellOk(node) && s.ChildrenOk(node, null, null);
        var i := node.Traverse(key);
        assert s.ChildOk(node, i, null, null);
        node := node.children[i];
      }
      leaf := node;
    }

    /** `_find`: the leaf of the key and the key's insertion slot there. */
    method Find(key: int) returns (leaf: Node<V>, slot: nat)
      requires Between(null, null, null)
      ensures leaf in nodes && leaf in leaves && leaf.isLeaf && leaf.Image().Holds(key)
      ensures SlotOf(leaf.keys, key, slot)
      ensures key in contents <==> slot < |leaf.keys| && leaf.keys[slot] == key
      ensures View().LeafOk(leaf, contents) && leaf.Image().KeysOk()
    {
      leaf := Descend(key);
      ghost var s := View();
      assert s.CellOk(leaf) && s.LeafOk(leaf, contents) && leaf in s.leaves;
      hide Between;
      slot := SlotIn(leaf.keys, key);
    }

    /** The binary search in the leaf. */
    static method SlotIn(keys: seq<int>, key: int) returns (slot: nat)
      requires StrictlySorted(keys)
      ensures SlotOf(keys, key, slot)
    {
      var lo, hi := 0, |keys|;
      while lo < hi
        invariant 0 <= lo <= hi <= |keys|
        invariant forall j :: 0 <= j < lo ==> keys[j] < key
        invariant forall j :: hi <= j < |keys| ==> key <= keys[j]
      {
        var mid := (lo + hi) / 2;
        if keys[mid] < key {
          lo := mid + 1;
        } else {
          hi := mid;
        }
      }
      slot := lo;
    }

    method Get(key: int) returns (r: Option<V>)
      requires Valid()
      ensures r == if key in contents then Some(contents[key]) else None
    {
      var leaf, slot := Find(key);
      if slot < |leaf.keys| && leaf.keys[slot] == key {
        return Some(leaf.values[slot]);
      }
      return None;
    }

    // The heap writes of the source, each equated with a function on the view.

    method LinkRoot(key: int, right: Node<V>) returns (top: Node<V>)
      requires root in nodes && right in nodes && root != right
      modifies this`root, this`nodes, root`parent, right`parent
      ensures fresh(top) && nodes == old(nodes) + {top}
      ensures View() == GrowRoot(old(View()), key, right, top)
    {
      ghost var s := View();
      top := new Node<V>.Filled(false, [key], [], [root, right], null, null, NegInf, PosInf, root.level + 1);
      root.parent := top;
      right.parent := top;
      root := top;
      nodes := nodes + {top};
      ViewIs(GrowRoot(s, key, right, top));
    }

    method LinkChild(key: int, right: Node<V>, parent: Node<V>, idx: nat)
      requires right in nodes && parent in nodes && right != parent
      requires idx <= |parent.keys| && idx < |parent.children|
      modifies parent`keys, parent`children, right`parent
      ensures View() == Adopt(old(View()), key, right, parent, idx)
      ensures parent.keys == InsertAt(old(parent.keys), idx, key)
      ensures parent.children == InsertAt(old(parent.children), idx + 1, right)
    {
      ghost var s := View();
      parent.keys := InsertAt(parent.keys, idx, key);
      parent.children := InsertAt(parent.children, idx + 1, right);
      right.parent := parent;
      ViewIs(Adopt(s, key, right, parent, idx));
    }

    method MoveUpperHalf(node: Node<V>) returns (half: Node<V>, promoted: int)
      requires node in nodes && !node.isLeaf && 0 < |node.keys| && |node.children| == |node.keys| + 1
      requires forall c :: c in node.children ==> c in nodes && c != node
      modifies this`nodes, nodes
      ensures fresh(half) && nodes == old(nodes) + {half} && root == old(root)
      ensures promoted == old(node.keys[|node.keys| / 2])
      ensures |node.keys| == old(|node.keys|) / 2 && node.hi == At(promoted) && node.level == old(node.level)
      ensures root.level == old(root.level)
      ensures View() == SplitInternal(old(View()), node, old(|node.keys|) / 2, half)
    {
      ghost var s := View();
      var mid := |node.keys| / 2;
      promoted := node.keys[mid];
      var moved := node.children[mid + 1..];
      half := new Node<V>.Filled(false, node.keys[mid + 1..], [], moved, null, node.parent,
        At(promoted), node.hi, node.level);
      node.Shrink(node.keys[..mid], node.values, node.children[..mid + 1], node.next, At(promoted));
      Reparent(moved, half);
      nodes := nodes + {half};
      forall n | n in nodes && n != half
        ensures SplitInternal(s, node, mid, half).heap[n] == n.Image()
      {
        assert s.heap[n] == old(n.Image());
        if n !in moved {
          assert n.parent == old(n.parent);
        }
      }
      ViewIs(SplitInternal(s, node, mid, half));
    }

    method Reparent(moved: seq<Node<V>>, half: Node<V>)
      modifies moved`parent
      ensures forall c :: c in moved ==> c.parent == half
    {
      var i := 0;
      while i < |moved|
        invariant i <= |moved|
        invariant forall j :: 0 <= j < i ==> moved[j].parent == half
      {
        moved[i].parent := half;
        i := i + 1;
      }
    }

    lemma SplitPlace(left: Node<V>, right: Node<V>)
      requires Between(left, right, null) && left in nodes
      ensures right in nodes && left.level <= root.level
      ensures left.parent == null ==> left == root
      ensures left.parent != null ==> ParentFacts(left, right)
    {
      var s := View();
      assert s.CellOk(left);
      assert left != root ==> s.ParentOk(left);
      if left.parent != null {
        ParentOfSplit(s, left, right, order);
      }
    }

    ghost predicate ParentFacts(left: Node<V>, right: Node<V>)
      requires left.parent != null
      reads this, nodes, root, left, left.parent
    {
      var p := left.parent;
      && p in nodes && !p.isLeaf && p != right && StrictlySorted(p.keys)
      && |p.children| == |p.keys| + 1 && |p.keys| <= order
      && left.level < p.level <= root.level
    }

    lemma SplitIndex(left: Node<V>, key: int, right: Node<V>, idx: nat)
      requires Between(left, right, null) && left in nodes && left.hi == At(key)
      requires left.parent != null && ParentFacts(left, right) && idx <= |left.parent.keys|
      requires forall j :: 0 <= j < idx ==> left.parent.keys[j] <= key
      requires forall j :: idx <= j < |left.parent.keys| ==> key < left.parent.keys[j]
      ensures Adoptable(View(), left, key, right, left.parent, idx)
    {
      ParentOfSplit(View(), left, right, order);
      SplitChildAt(View(), left, key, right, idx);
    }

    method AdoptBeside(left: Node<V>, key: int, right: Node<V>, parent: Node<V>)
      requires Between(left, right, null) && left in nodes && right in nodes && left.hi == At(key)
      requires left.parent == parent && ParentFacts(left, right)
      modifies parent`keys, parent`children, right`parent
      ensures Between(null, null, parent)
      ensures |parent.keys| <= order + 1 && |parent.children| == |parent.keys| + 1
    {
      hide Between, View, Shape.NodesOk, Adopt, Adoptable;
      ghost var s := View();
      var idx := parent.TraverseLt(key);
      SplitIndex(left, key, right, idx);
      Opened(left, right, null);
      LinkChild(key, right, parent, idx);
      AdoptInv(s, order, contents, left, key, right, parent, idx);
      Opened(null, null, parent);
    }

    method GrowTop(left: Node<V>, key: int, right: Node<V>)
      requires Between(left, right, null) && left == root && left.hi == At(key)
      requires !left.isLeaf ==> |left.keys| >= order / 2
      modifies this`root, this`nodes, left`parent, right`parent
      ensures Between(null, null, null)
      ensures old(nodes) <= nodes && fresh(nodes - old(nodes))
    {
      ghost var s := View();
      var top := LinkRoot(key, right);
      GrowRootInv(s, order, contents, key, right, top);
    }

    lemma RoomLeft(n: Node<V>)
      requires Between(null, null, n) && n in nodes && |n.keys| <= order
      ensures Between(null, null, null)
    {
      NotFull(View(), order, n);
    }

    /** Hooks the new node `right` in beside `left`; grows a root or splits upwards. */
    method InsertInParent(left: Node<V>, key: int, right: Node<V>)
      requires Between(left, right, null) && left in nodes && left.hi == At(key)
      requires !left.isLeaf ==> |left.keys| >= order / 2
      modifies this`root, this`nodes, nodes
      ensures Between(null, null, null)
      ensures old(nodes) <= nodes && fresh(nodes - old(nodes))
      decreases root.level - left.level, 1
    {
      hide *;
      SplitPlace(left, right);
      var parent := left.parent;
      if parent == null {
        GrowTop(left, key, right);
        return;
      }
      AdoptBeside(left, key, right, parent);
      if |parent.keys| > order {
        SplitInternalNode(parent);
      } else {
        RoomLeft(parent);
      }
    }

    method DivideInternal(node: Node<V>) returns (half: Node<V>, promoted: int)
      requires Between(null, null, node) && node in nodes && !node.isLeaf && |node.keys| == order + 1
      requires |node.children| == |node.keys| + 1
      modifies this`nodes, nodes
      ensures fresh(half) && nodes == old(nodes) + {half} && root == old(root) && root.level == old(root.level)
      ensures Between(node, half, null)
      ensures |node.keys| >= order / 2 && node.hi == At(promoted) && node.level == old(node.level)
    {
      hide Between, Shape.Inv, SplitInternal;
      ghost var s := View();
      Opened(null, null, node);
      OverfullFacts(node);
      half, promoted := MoveUpperHalf(node);
      SplitInternalInv(s, order, contents, node, half);
      Opened(node, half, null);
    }

    lemma OverfullFacts(node: Node<V>)
      requires Between(null, null, node) && node in nodes && !node.isLeaf && |node.keys| == order + 1
      ensures Overfull(View(), order, node)
      ensures forall c :: c in node.children ==> c in nodes && c != node
    {
      ChildrenAlive(View(), node);
    }

    method SplitInternalNode(node: Node<V>)
      requires Between(null, null, node) && node in nodes && !node.isLeaf && |node.keys| == order + 1
      requires |node.children| == |node.keys| + 1 && node.level <= root.level
      modifies this`root, this`nodes, nodes
      ensures Between(null, null, null)
      ensures old(nodes) <= nodes && fresh(nodes - old(nodes))
      decreases root.level - node.level, 2
    {
      hide *;
      var half, promoted := DivideInternal(node);
      InsertInParent(node, promoted, half);
    }

    method MoveUpperLeaf(leaf: Node<V>, ghost at: nat) returns (half: Node<V>)
      requires leaf in nodes && leaf.isLeaf && leaf.level == 0 && leaf.children == []
      requires 0 < |leaf.keys| == |leaf.values| && at < |leaves|
      modifies this`nodes, this`leaves, leaf
      ensures fresh(half) && nodes == old(nodes) + {half} && |leaves| == old(|leaves|) + 1
      ensures View() == SplitLeaf(old(View()), leaf, old(|leaf.keys|) / 2, half, at)
      ensures |half.keys| > 0 && leaf.hi == At(half.keys[0])
    {
      ghost var s := View();
      var mid := |leaf.keys| / 2;
      half := new Node<V>.Filled(true, leaf.keys[mid..], leaf.values[mid..], [], leaf.next, leaf.parent,
        At(leaf.keys[mid]), leaf.hi, 0);
      leaf.Shrink(leaf.keys[..mid], leaf.values[..mid], leaf.children, half, At(leaf.keys[mid]));
      nodes := nodes + {half};
      leaves := InsertAt(leaves, at + 1, half);
      ViewIs(SplitLeaf(s, leaf, mid, half, at));
    }

    lemma LeafFacts(leaf: Node<V>, full: Node?<V>)
      requires Between(null, null, full) && leaf in nodes && leaf.isLeaf
      ensures leaf in leaves && leaf.level == 0 && leaf.children == []
      ensures leaf.Image().KeysOk() && |leaf.values| == |leaf.keys|
      ensures leaf.Image().Stores(contents)
      ensures order >= 3 && (leaf == full || |leaf.keys| <= order)
    {
      var s := View();
      assert s.CellOk(leaf) && s.LeafOk(leaf, contents) && s.FillAt(leaf, order, full) && leaf in s.leaves;
    }

    method DivideLeaf(leaf: Node<V>) returns (half: Node<V>)
      requires Between(null, null, leaf) && leaf in nodes && leaf.isLeaf && |leaf.keys| == order + 1
      modifies this`nodes, this`leaves, leaf
      ensures fresh(half) && nodes == old(nodes) + {half} && |leaves| == old(|leaves|) + 1
      ensures Between(leaf, half, null)
      ensures |half.keys| > 0 && leaf.hi == At(half.keys[0])
    {
      hide Between, Shape.Inv, SplitLeaf, Cell.Stores;
      ghost var s := View();
      LeafFacts(leaf, leaf);
      Opened(null, null, leaf);
      ghost var at :| 0 <= at < |leaves| && leaves[at] == leaf;
      half := MoveUpperLeaf(leaf, at);
      SplitLeafInv(s, order, contents, leaf, half, at);
      Opened(leaf, half, null);
    }

    method SplitLeafNode(leaf: Node<V>)
      requires Between(null, null, leaf) && leaf in nodes && leaf.isLeaf && |leaf.keys| == order + 1
      modifies this`root, this`nodes, this`leaves, nodes
      ensures Between(null, null, null) && |leaves| == old(|leaves|) + 1
      ensures old(nodes) <= nodes && fresh(nodes - old(nodes))
    {
      hide *;
      var half := DivideLeaf(leaf);
      var promoted := half.keys[0];
      InsertInParent(leaf, promoted, half);
    }

    method WriteLeaf(leaf: Node<V>, keys: seq<int>, values: seq<V>)
      requires leaf in nodes
      modifies leaf`keys, leaf`values
      ensures View() == SetLeaf(old(View()), leaf, keys, values) && leaf.keys == keys
    {
      ghost var s := View();
      leaf.keys, leaf.values := keys, values;
      ViewIs(SetLeaf(s, leaf, keys, values));
    }

    method SetEntry(leaf: Node<V>, key: int, keys: seq<int>, values: seq<V>, ghost contents': map<int, V>)
      requires Between(null, null, null) && leaf in nodes && leaf.isLeaf && leaf.Image().Holds(key)
      requires leaf.Image().(keys := keys, values := values).KeysOk() && |keys| <= order + 1
      requires leaf.Image().(keys := keys, values := values).Stores(contents')
      requires forall k :: k != key ==> (k in contents <==> k in contents')
      requires forall k :: k != key && k in contents ==> contents[k] == contents'[k]
      modifies this`contents, leaf`keys, leaf`values
      ensures contents == contents' && leaf.keys == keys
      ensures |keys| <= order ==> Between(null, null, null)
      ensures |keys| > order ==> Between(null, null, leaf)
    {
      hide Between, Shape.Inv, Cell.Stores, Cell.KeysOk;
      ghost var s := View();
      Opened(null, null, null);
      WriteLeaf(leaf, keys, values);
      SetLeafInv(s, order, contents, contents', leaf, key, keys, values);
      contents := contents';
      Opened(null, null, null);
      Opened(null, null, leaf);
    }

    /** Inserts the key or replaces its value. */
    method Insert(key: int, value: V)
      requires Valid()
      modifies this, nodes
      ensures Valid() && old(nodes) <= nodes && fresh(nodes - old(nodes))
      ensures contents == old(contents)[key := value]
      ensures created == old(created) + if key in old(contents) then 0 else 1
      ensures key in old(contents) ==> leaves == old(leaves) && forall n :: n in leaves ==> n.keys == old(n.keys)
    {
      hide Between, Shape.Inv, Cell.Stores, Cell.KeysOk;
      var leaf, slot := Find(key);
      LeafFacts(leaf, null);
      if slot < |leaf.keys| && leaf.keys[slot] == key {
        LeafReplace(leaf.Image(), contents, key, slot, value);
        SetEntry(leaf, key, leaf.keys, leaf.values[slot := value], contents[key := value]);
        return;
      }
      PutKeysOk(leaf.Image(), contents, key, slot, value);
      PutStores(leaf.Image(), contents, key, slot, value);
      SetEntry(leaf, key, InsertAt(leaf.keys, slot, key), InsertAt(leaf.values, slot, value), contents[key := value]);
      size, created := size + 1, created + 1;
      if |leaf.keys| > order {
        SplitLeafNode(leaf);
      }
    }

    /** The invariant, except that the root may have run out of keys. */
    ghost predicate RootMayBeEmpty()
      reads this`root, this`nodes, this`leaves, this`contents, nodes
    {
      Loose(View(), order, contents)
    }

    /** `_collapse_after_delete`, from any state whose root may have run empty. */
    method CollapseAfterDelete()
      requires RootMayBeEmpty()
      modifies this`root, this`nodes, nodes`parent
      ensures Between(null, null, null) && nodes <= old(nodes)
      ensures old(root.isLeaf || |root.keys| > 0) ==> root == old(root) && nodes == old(nodes)
    {
      hide RootMayBeEmpty, Between;
      while !root.isLeaf && |root.keys| == 0
        invariant RootMayBeEmpty() && nodes <= old(nodes)
        invariant old(root.isLeaf || |root.keys| > 0) ==>
                    root == old(root) && nodes == old(nodes) && root.keys == old(root.keys)
        decreases root.level
      {
        DropRoot();
      }
      RootInUse();
    }

    lemma RootInUse()
      requires root.isLeaf || |root.keys| > 0
      ensures RootMayBeEmpty() <==> Between(null, null, null)
    {
      var s := View();
      if s.root in s.heap {
        LooseIsInv(s, order, contents);
      }
    }

    method DropRoot()
      requires RootMayBeEmpty() && !root.isLeaf && |root.keys| == 0
      modifies this`root, this`nodes, nodes`parent
      ensures RootMayBeEmpty() && nodes <= old(nodes) && root.level < old(root.level)
    {
      ghost var s := View();
      CollapseNodes(s);
      assert s.ChildrenOk(root, null, null) && s.ChildOk(root, 0, null, null);
      CollapseLoose(s, order, contents);
      nodes := nodes - {root};
      root := root.children[0];
      root.parent := null;
      ViewIs(Collapse(s));
    }

    method RemoveEntry(leaf: Node<V>, key: int, slot: nat)
      requires Between(null, null, null) && leaf in nodes && leaf.isLeaf && leaf.Image().Holds(key)
      requires slot < |leaf.keys| && leaf.keys[slot] == key
      modifies this`contents, leaf`keys, leaf`values
      ensures Between(null, null, null)
      ensures contents == old(contents) - {key} && leaf.keys == Without(old(leaf.keys), key)
    {
      hide Between, Shape.Inv, Cell.Stores, Cell.KeysOk;
      LeafFacts(leaf, null);
      DropKeysOk(leaf.Image(), slot);
      SortedLeaf(leaf);
      WithoutAt(leaf.keys, slot);
      DropStores(leaf.Image(), contents, key, slot);
      SetEntry(leaf, key, RemoveAt(leaf.keys, slot), RemoveAt(leaf.values, slot), contents - {key});
    }

    /** Deletes the key; the shape of the tree, and hence its height, stays. */
    method Delete(key: int) returns (found: bool)
      requires Valid()
      modifies this, nodes
      ensures Valid() && found == (key in old(contents)) && contents == old(contents) - {key}
      ensures root == old(root) && nodes == old(nodes) && leaves == old(leaves) && created == old(created)
      ensures forall n :: n in nodes ==> n.next == old(n.next)
      ensures forall n :: n in leaves ==> n.keys == Without(old(n.keys), key)
    {
      hide Between, View, Node.Image, Cell.Holds, Shape.LeafOk, Cell.Stores, Cell.KeysOk, RootMayBeEmpty;
      KeyInOneLeaf(key);
      var leaf, slot := Find(key);
      if slot >= |leaf.keys| || leaf.keys[slot] != key {
        return false;
      }
      RemoveEntry(leaf, key, slot);
      size := size - 1;
      RootHasKeys();
      RootInUse();
      CollapseAfterDelete();
      found := true;
    }

    /** Only the leaf whose interval holds a key can store it. */
    lemma KeyInOneLeaf(key: int)
      requires Between(null, null, null)
      ensures forall n :: n in leaves ==> n in nodes && n.isLeaf
      ensures forall n, m :: n in leaves && m in leaves && key in n.keys && m.Image().Holds(key) ==> n == m
      ensures forall n :: n in leaves ==> StrictlySorted(n.keys) && (key in n.keys ==> key in contents)
    {
      var s := View();
      forall n | n in leaves
        ensures n in nodes && n.isLeaf && StrictlySorted(n.keys) && (key in n.keys ==> key in contents)
      {
        assert s.CellOk(n) && s.LeafOk(n, contents);
      }
      forall n, m | n in leaves && m in leaves && key in n.keys && m.Image().Holds(key) ensures n == m {
        assert s.CellOk(n);
        var i :| 0 <= i < |n.keys| && n.keys[i] == key;
        assert n.Image().Holds(n.keys[i]);
        LeafUnique(s, n, m, key);
      }
    }

    lemma SortedLeaf(leaf: Node<V>)
      requires leaf.Image().KeysOk()
      ensures StrictlySorted(leaf.keys)
    {
    }

    lemma RootHasKeys()
      requires Between(null, null, null)
      ensures root.isLeaf || |root.keys| > 0
    {
      assert View().FillAt(root, order, null);
    }

    method LeftmostLeaf() returns (leaf: Node<V>)
      requires Between(null, null, null)
      ensures |leaves| > 0 && leaf == leaves[0] && leaf in nodes
      ensures leaf.isLeaf && leaf.lo == NegInf && leaf.hi != NegInf
    {
      ghost var s := View();
      var node := root;
      while !node.isLeaf
        invariant node in nodes && node.lo == NegInf
        decreases node.level
      {
        assert s.CellOk(node) && s.ChildrenOk(node, null, null) && s.ChildOk(node, 0, null, null);
        node := node.children[0];
      }
      assert node in s.leaves;
      assert |s.leaves| > 1 ==> s.LinkOk(0);
      leaf := node;
    }

    method Depth() returns (d: nat)
      requires Valid()
      ensures d == root.level + 1
      ensures d >= 2 ==> 2 * Pow(order / 2 + 1, d - 2) <= 1 + created
    {
      ghost var s := View();
      d := 1;
      var node := root;
      while !node.isLeaf
        invariant node in nodes && d + node.level == root.level + 1
        decreases node.level
      {
        assert s.CellOk(node) && s.ChildrenOk(node, null, null) && s.ChildOk(node, 0, null, null);
        d := d + 1;
        node := node.children[0];
      }
      assert s.CellOk(node);
      HeightBound(s, order);
    }

    // ---------------------------------------------------------------
    // Range scans
    // ---------------------------------------------------------------

    static ghost predicate InRange(k: int, low: Option<int>, high: Option<int>) {
      (low.Some? ==> low.value <= k) && (high.Some? ==> k < high.value)
    }

    /** The keys from slot `slot` of `node` on, and those of all later leaves. */
    ghost predicate Ahead(k: int, node: Node<V>, slot: nat)
      reads node
    {
      (exists i :: slot <= i < |node.keys| && node.keys[i] == k) || (node.hi.At? && node.hi.key <= k)
    }

    lemma NextLeaf(j: nat, k: int)
      requires Between(null, null, null) && j < |leaves|
      ensures var node := leaves[j];
        && (node.next == null ==> node.hi == PosInf)
        && (node.next != null ==>
              && j + 1 < |leaves| && leaves[j + 1] == node.next && node.next in nodes
              && node.hi.At? && node.next.lo == node.hi
              && node.next.isLeaf
              && (node.next.hi == PosInf || (node.next.hi.At? && node.hi.key < node.next.hi.key))
              && (k in contents && node.hi.key <= k ==> Ahead(k, node.next, 0)))
    {
      var s := View();
      var node := leaves[j];
      if j + 1 < |leaves| {
        assert s.LinkOk(j);
        LeafFacts(node.next, null);
        if j + 2 < |leaves| {
          assert s.LinkOk(j + 1);
        }
        if k in contents && node.hi.key <= k && node.next.Image().Holds(k) {
          assert k in node.next.keys;
          var i :| 0 <= i < |node.next.keys| && node.next.keys[i] == k;
        }
      }
    }

    /** What a scan has to yield: the entries in range, by increasing key. */
    ghost predicate Yields(out: seq<(int, V)>, low: Option<int>, high: Option<int>)
      reads this`contents
    {
      && (forall i, j :: 0 <= i < j < |out| ==> out[i].0 < out[j].0)
      && (forall i :: 0 <= i < |out| ==> InRange(out[i].0, low, high))
      && (forall i :: 0 <= i < |out| ==> out[i].0 in contents && out[i].1 == contents[out[i].0])
    }

    ghost predicate Yielded(out: seq<(int, V)>, k: int) {
      exists i :: 0 <= i < |out| && out[i].0 == k
    }

    /** Where the scan stands: all keys from `low` on are yielded or ahead. */
    ghost predicate ScanAt(out: seq<(int, V)>, low: Option<int>, high: Option<int>, node: Node<V>, slot: nat)
      reads this`contents, node
    {
      && slot <= |node.keys| && Yields(out, low, high)
      && (low.Some? ==> node.hi == PosInf || (node.hi.At? && low.value < node.hi.key))
      && (forall k :: k in contents && (low.Some? ==> low.value <= k) ==> Yielded(out, k) || Ahead(k, node, slot))
      && (forall i :: 0 <= i < |out| ==> node.hi == PosInf || (node.hi.At? && out[i].0 < node.hi.key))
      && (slot < |node.keys| ==> forall i :: 0 <= i < |out| ==> out[i].0 < node.keys[slot])
      && (slot < |node.keys| && low.Some? ==> low.value <= node.keys[slot])
    }

    ghost predicate Complete(out: seq<(int, V)>, low: Option<int>, high: Option<int>)
      reads this`contents
    {
      Yields(out, low, high) && forall k :: k in contents && InRange(k, low, high) ==> Yielded(out, k)
    }

    lemma ScanNext(out: seq<(int, V)>, low: Option<int>, high: Option<int>, j: nat)
      requires Between(null, null, null) && j < |leaves|
      requires ScanAt(out, low, high, leaves[j], |leaves[j].keys|)
      ensures var next := leaves[j].next;
        && (next == null ==> Complete(out, low, high))
        && (next != null ==>
              j + 1 < |leaves| && leaves[j + 1] == next && next in nodes && next.isLeaf &&
              ScanAt(out, low, high, next, 0))
    {
      var node := leaves[j];
      NextLeaf(j, 0);
      if node.next != null {
        LeafFacts(node.next, null);
        forall k | k in contents && (low.Some? ==> low.value <= k)
          ensures Yielded(out, k) || Ahead(k, node.next, 0)
        {
          NextLeaf(j, k);
        }
        var c := node.next.Image();
        assert |c.keys| > 0 ==> c.Holds(c.keys[0]);
      } else {
        forall k | k in contents && InRange(k, low, high) ensures Yielded(out, k) {
          assert !Ahead(k, node, |node.keys|);
        }
      }
    }

    /** The inner loop of `range`: what is left of one leaf. */
    method ScanLeaf(before: seq<(int, V)>, low: Option<int>, high: Option<int>, leaf: Node<V>, start: nat)
      returns (out: seq<(int, V)>, stop: bool)
      requires leaf.Image().KeysOk() && leaf.Image().Stores(contents)
      requires ScanAt(before, low, high, leaf, start)
      ensures stop ==> Complete(out, low, high)
      ensures !stop ==> ScanAt(out, low, high, leaf, |leaf.keys|)
    {
      hide Complete;
      out := before;
      var slot := start;
      assert leaf.Image() == Cell(leaf.isLeaf, leaf.parent, leaf.keys, leaf.values, leaf.next, leaf.children,
                                  leaf.lo, leaf.hi, leaf.level);
      while slot < |leaf.keys|
        invariant ScanAt(out, low, high, leaf, slot)
      {
        var k := leaf.keys[slot];
        if high.Some? && k >= high.value {
          ScanStops(out, low, high, leaf, slot);
          return out, true;
        }
        ScanStep(out, low, high, leaf, slot);
        out := out + [(k, leaf.values[slot])];
        slot := slot + 1;
      }
      stop := false;
    }

    lemma ScanStops(out: seq<(int, V)>, low: Option<int>, high: Option<int>, leaf: Node<V>, slot: nat)
      requires leaf.Image().KeysOk() && ScanAt(out, low, high, leaf, slot) && slot < |leaf.keys|
      requires high.Some? && leaf.keys[slot] >= high.value
      ensures Complete(out, low, high)
    {
      assert leaf.Image().Holds(leaf.keys[slot]);
      forall k | k in contents && InRange(k, low, high) ensures Yielded(out, k) {
        assert !Ahead(k, leaf, slot);
      }
    }

    lemma ScanStep(out: seq<(int, V)>, low: Option<int>, high: Option<int>, leaf: Node<V>, slot: nat)
      requires leaf.Image().KeysOk() && leaf.Image().Stores(contents)
      requires ScanAt(out, low, high, leaf, slot) && slot < |leaf.keys|
      requires high.Some? ==> leaf.keys[slot] < high.value
      ensures ScanAt(out + [(leaf.keys[slot], leaf.values[slot])], low, high, leaf, slot + 1)
    {
      var key := leaf.keys[slot];
      var out' := out + [(key, leaf.values[slot])];
      assert leaf.Image().Holds(key) && out'[|out|].0 == key;
      forall k | k in contents && (low.Some? ==> low.value <= k)
        ensures Yielded(out', k) || Ahead(k, leaf, slot + 1)
      {
        if Yielded(out, k) {
          var i :| 0 <= i < |out| && out[i].0 == k;
          assert out'[i].0 == k;
        }
      }
    }

    method StartOfRange(low: Option<int>, high: Option<int>) returns (leaf: Node<V>, slot: nat)
      requires Between(null, null, null)
      ensures leaf in nodes && leaf.isLeaf && leaf in leaves && ScanAt([], low, high, leaf, slot)
    {
      if low == None {
        leaf := LeftmostLeaf();
        slot := 0;
      } else {
        leaf, slot := Find(low.value);
      }
      ghost var s := View();
      LeafFacts(leaf, null);
      forall k | k in contents && (low.Some? ==> low.value <= k) ensures Ahead(k, leaf, slot) {
        assert leaf.Image().Holds(k) || (leaf.hi.At? && leaf.hi.key <= k);
        if leaf.Image().Holds(k) {
          assert k in leaf.keys;
          var i :| 0 <= i < |leaf.keys| && leaf.keys[i] == k;
          assert i >= slot;
        }
      }
    }

    /** `range`: the entries with low <= key < high, in key order. */
    method Range(low: Option<int>, high: Option<int>) returns (out: seq<(int, V)>)
      requires Valid()
      ensures Complete(out, low, high)
    {
      hide Between, Complete, ScanAt;
      var leaf: Node?<V>, slot := StartOfRange(low, high);
      out := [];
      ghost var j :| 0 <= j < |leaves| && leaves[j] == leaf;
      while leaf != null
        invariant leaf == null ==> Complete(out, low, high)
        invariant leaf != null ==> 0 <= j < |leaves| && leaves[j] == leaf && leaf in nodes && leaf.isLeaf
        invariant leaf != null ==> ScanAt(out, low, high, leaf, slot)
        decreases |leaves| - j
      {
        var stop;
        LeafFacts(leaf, null);
        out, stop := ScanLeaf(out, low, high, leaf, slot);
        if stop {
          return;
        }
        ScanNext(out, low, high, j);
        leaf, slot := leaf.next, 0;
        j := j + 1;
      }
    }

    // ---------------------------------------------------------------
    // Deleting during a scan
    // ---------------------------------------------------------------

    /** The keys of the leaves, in chain order. */
    ghost function Layout(): (l: seq<seq<int>>)
      reads this`leaves, leaves
      ensures |l| == |leaves| && forall i :: 0 <= i < |l| ==> l[i] == leaves[i].keys
    {
      var ls := leaves;
      seq(|ls|, i requires 0 <= i < |ls| reads ls => ls[i].keys)
    }

    lemma LayoutOk()
      requires Valid()
      ensures Laid(Layout(), contents.Keys)
    {
      ChainNodes();
      var s := View();
      forall i | 0 <= i < |leaves|
        ensures StrictlySorted(leaves[i].keys) && forall k :: k in leaves[i].keys ==> k in contents
      {
        LeafFacts(leaves[i], null);
      }
      forall k | k in contents ensures exists i :: 0 <= i < |leaves| && k in leaves[i].keys {
        assert View().heap[leaves[0]].lo == NegInf;
        var i := HoldingLeaf(k, 0);
        LeafFacts(leaves[i], null);
      }
    }

    /** The intervals of the leaves tile the line. */
    lemma {:induction false} HoldingLeaf(k: int, j: nat) returns (i: nat)
      requires Between(null, null, null) && j < |leaves| && leaves[j] in nodes
      requires leaves[j].lo == NegInf || (leaves[j].lo.At? && leaves[j].lo.key <= k)
      ensures i < |leaves| && leaves[i] in nodes && leaves[i].isLeaf && leaves[i].Image().Holds(k)
      decreases |leaves| - j
    {
      var s := View();
      assert s.heap[leaves[j]].isLeaf;
      if leaves[j].Image().Holds(k) {
        i := j;
      } else {
        assert j + 1 < |leaves| ==> s.LinkOk(j);
        assert s.heap[leaves[|leaves| - 1]].hi == PosInf;
        i := HoldingLeaf(k, j + 1);
      }
    }

    lemma OnlyHere(leaf: Node<V>, slot: nat)
      requires Between(null, null, null) && leaf in leaves && slot < |leaf.keys|
      ensures forall n :: n in leaves && n != leaf ==> Without(n.keys, leaf.keys[slot]) == n.keys
      ensures StrictlySorted(leaf.keys) && leaf in nodes && leaf.isLeaf
    {
      KeyInOneLeaf(leaf.keys[slot]);
      LeafFacts(leaf, null);
      assert leaf.Image().Holds(leaf.keys[slot]);
    }

    /** The loop of `replace_chains` that walks the tree and deletes, as it goes,
        the keys outside `keep`. */
    method RemoveOthers(keep: set<int>)
      requires Valid()
      modifies this, nodes
      ensures Valid() && nodes == old(nodes) && leaves == old(leaves)
      ensures forall i :: 0 <= i < |leaves| ==> leaves[i].keys == Skim(old(leaves[i].keys), keep)
      ensures forall k :: k in contents ==> k in old(contents) && contents[k] == old(contents)[k]
      ensures forall k :: k in old(contents) && k in keep ==> k in contents
    {
      hide Between;
      var leaf: Node?<V> := LeftmostLeaf();
      ghost var j := 0;
      while leaf != null
        invariant Valid() && nodes == old(nodes) && leaves == old(leaves) && j <= |leaves|
        invariant leaf == null ==> j == |leaves|
        invariant leaf != null ==> j < |leaves| && leaf == leaves[j]
        invariant forall i :: 0 <= i < j ==> leaves[i].keys == Skim(old(leaves[i].keys), keep)
        invariant forall i :: j <= i < |leaves| ==> leaves[i].keys == old(leaves[i].keys)
        invariant Thinned(old(contents), keep)
        decreases |leaves| - j
      {
        SkimLeaf(leaf, keep, j, old(contents));
        NextInChain(j);
        leaf := leaf.next;
        j := j + 1;
      }
    }

    /** Some keys outside `keep` have gone, nothing else has changed. */
    ghost predicate Thinned(before: map<int, V>, keep: set<int>)
      reads this`contents
    {
      && (forall k :: k in contents ==> k in before && contents[k] == before[k])
      && (forall k :: k in before && k in keep ==> k in contents)
    }

    lemma NextInChain(j: nat)
      requires Between(null, null, null) && j < |leaves|
      ensures leaves[j].next == null ==> j + 1 == |leaves|
      ensures leaves[j].next != null ==> j + 1 < |leaves| && leaves[j].next == leaves[j + 1]
    {
      assert j + 1 < |leaves| ==> View().LinkOk(j);
    }

    lemma ChainNodes()
      requires Between(null, null, null)
      ensures forall n :: n in leaves ==> n in nodes && n.isLeaf
      ensures Distinct(leaves)
    {
      KeyInOneLeaf(0);
      ChainDistinct(View());
    }

    /** Deletes the key in one slot of a leaf; all other leaves stay as they are. */
    method DeleteAt(leaf: Node<V>, slot: nat, ghost j: nat)
      requires Valid() && j < |leaves| && leaves[j] == leaf && slot < |leaf.keys|
      modifies this, nodes
      ensures Valid() && nodes == old(nodes) && leaves == old(leaves)
      ensures leaf.keys == RemoveAt(old(leaf.keys), slot) && contents == old(contents) - {old(leaf.keys[slot])}
      ensures forall i :: 0 <= i < |leaves| && i != j ==> leaves[i].keys == old(leaves[i].keys)
    {
      hide Between;
      ChainNodes();
      OnlyHere(leaf, slot);
      WithoutAt(leaf.keys, slot);
      var _ := Delete(leaf.keys[slot]);
    }

    method SkimLeaf(leaf: Node<V>, keep: set<int>, ghost j: nat, ghost before: map<int, V>)
      requires Valid() && j < |leaves| && leaves[j] == leaf && Thinned(before, keep)
      modifies this, nodes
      ensures Valid() && nodes == old(nodes) && leaves == old(leaves) && Thinned(before, keep)
      ensures leaf.keys == Skim(old(leaf.keys), keep)
      ensures forall i :: 0 <= i < |leaves| && i != j ==> leaves[i].keys == old(leaves[i].keys)
    {
      hide Valid, Skim;
      ghost var goal := Skim(leaf.keys, keep);
      var slot := 0;
      assert leaf.keys[..0] + goal == goal;
      while slot < |leaf.keys|
        invariant Valid() && nodes == old(nodes) && leaves == old(leaves) && Thinned(before, keep)
        invariant slot <= |leaf.keys| ==> goal == leaf.keys[..slot] + Skim(leaf.keys[slot..], keep)
        invariant slot > |leaf.keys| ==> goal == leaf.keys
        invariant forall i :: 0 <= i < |leaves| && i != j ==> leaves[i].keys == old(leaves[i].keys)
        decreases |leaf.keys| - slot
      {
        SkimStep(leaf.keys, slot, keep);
        if leaf.keys[slot] !in keep {
          DeleteAt(leaf, slot, j);
        }
        slot := slot + 1;
      }
      if slot == |leaf.keys| {
        assert leaf.keys[slot..] == [] && leaf.keys[..slot] == leaf.keys;
        SkimNothing(keep);
      }
    }
  }

  /** The keys `keys` spread over sorted leaves. */
  ghost predicate Laid(layout: seq<seq<int>>, keys: set<int>) {
    && (forall i :: 0 <= i < |layout| ==> StrictlySorted(layout[i]))
    && (forall i, k :: 0 <= i < |layout| && k in layout[i] ==> k in keys)
    && (forall k :: k in keys ==> exists i :: 0 <= i < |layout| && k in layout[i])
  }

  /** What the scan was meant to remove and steps over. */
  ghost function Spared(layout: seq<seq<int>>, keep: set<int>): set<int> {
    set i, k | 0 <= i < |layout| && k in Skim(layout[i], keep) && k !in keep :: k
  }

  /** Two keys that are to go stand side by side in a leaf. */
  ghost predicate Neighbours(layout: seq<seq<int>>, keep: set<int>) {
    exists i :: 0 <= i < |layout| && NeighboursIn(layout[i], keep)
  }

  ghost predicate NeighboursIn(keys: seq<int>, keep: set<int>) {
    exists j :: 0 <= j < |keys| - 1 && keys[j] !in keep && keys[j + 1] !in keep
  }

  lemma SparedNoneExactly(layout: seq<seq<int>>, keep: set<int>)
    requires forall i :: 0 <= i < |layout| ==> StrictlySorted(layout[i])
    ensures Spared(layout, keep) == {} <==> !Neighbours(layout, keep)
  {
    forall i | 0 <= i < |layout|
      ensures NeighboursIn(layout[i], keep) <==> exists k :: k in Skim(layout[i], keep) && k !in keep
    {
      SkimCompleteExactly(layout[i], keep);
    }
    hide Skim, NeighboursIn;
    if Neighbours(layout, keep) {
      var i :| 0 <= i < |layout| && NeighboursIn(layout[i], keep);
      var k :| k in Skim(layout[i], keep) && k !in keep;
      assert k in Spared(layout, keep);
    }
  }

  /** Of two keys to be removed that share a leaf, the second stays. */
  lemma SparedOfTwo(a: int, b: int, keep: set<int>)
    requires a !in keep && b !in keep
    ensures Spared([[a, b]], keep) == {b}
  {
    var row, layout := [a, b], [[a, b]];
    assert row[2..] == [];
    SkimNothing(keep);
    assert Skim(row, keep) == [b];
    assert layout[0] == row;
    assert forall k :: k in Spared(layout, keep) ==> k in Skim(layout[0], keep);
    assert b in Skim(layout[0], keep);
  }

  lemma SkimNothing(keep: set<int>)
    ensures Skim([], keep) == []
  {
  }

  /** One turn of the loop, on the keys alone. */
  lemma SkimStep(keys: seq<int>, slot: nat, keep: set<int>)
    requires slot < |keys|
    ensures keys[slot] in keep ==>
              keys[..slot] + Skim(keys[slot..], keep) == keys[..slot + 1] + Skim(keys[slot + 1..], keep)
    ensures keys[slot] !in keep ==>
              var rest := RemoveAt(keys, slot);
              keys[..slot] + Skim(keys[slot..], keep)
              == if slot < |rest| then rest[..slot + 1] + Skim(rest[slot + 1..], keep) else rest
  {
    assert keys[slot..][1..] == keys[slot + 1..];
    if keys[slot] in keep {
      assert keys[..slot] + [keys[slot]] == keys[..slot + 1];
    } else if slot + 1 < |keys| {
      var rest := RemoveAt(keys, slot);
      assert keys[slot..][2..] == keys[slot + 2..] == rest[slot + 1..];
      assert keys[..slot] + [keys[slot + 1]] == rest[..slot + 1];
    }
  }
}
