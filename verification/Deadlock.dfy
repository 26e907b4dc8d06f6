/** The wait-for graph of minidb/txn/locks.py and its two searches: the depth-first
    hunt for deadlocked transactions and the breadth-first one for the cycle shown
    to the victim.  Sets are visited in any order. */
module Deadlock {
  import opened Basics
  import opened Versions
  import opened Locks

  type Graph = map<TxId, set<TxId>>
  type Branch = (TxId, seq<TxId>)

  predicate Edge(g: Graph, u: TxId, v: TxId) {
    u in g && v in g[u]
  }

  ghost predicate IsPath(g: Graph, p: seq<TxId>) {
    |p| > 0 && forall i :: 0 <= i < |p| - 1 ==> Edge(g, p[i], p[i + 1])
  }

  ghost predicate IsCycle(g: Graph, p: seq<TxId>) {
    IsPath(g, p) && Edge(g, p[|p| - 1], p[0])
  }

  ghost predicate OnCycle(g: Graph, v: TxId) {
    exists p :: IsCycle(g, p) && p[0] == v
  }

  ghost predicate Leads(g: Graph, u: TxId, v: TxId) {
    exists p :: IsPath(g, p) && p[0] == u && p[|p| - 1] == v
  }

  // ---- the graph ----

  ghost predicate WaitsFor(resources: Resources, u: TxId, v: TxId) {
    u != v && exists r :: r in resources && u in resources[r].waiters && v in resources[r].holders
  }

  ghost predicate Waits(resources: Resources, u: TxId) {
    exists r :: r in resources && u in resources[r].waiters
  }

  /** `_build_graph`. */
  method BuildGraph(resources: Resources) returns (g: Graph)
    ensures forall u: TxId :: u in g <==> Waits(resources, u)
    ensures forall u: TxId, v: TxId :: Edge(g, u, v) <==> WaitsFor(resources, u, v)
  {
    g := map[];
    var todo := resources;
    ghost var done: Resources := map[];
    while todo != map[]
      invariant forall r :: r in resources <==> r in todo || r in done
      invariant forall r :: r in todo ==> todo[r] == resources[r]
      invariant forall r :: r in done ==> r in resources && done[r] == resources[r]
      invariant forall u: TxId :: u in g <==> Waits(done, u)
      invariant forall u: TxId, v: TxId :: Edge(g, u, v) <==> WaitsFor(done, u, v)
      decreases |todo.Keys|
    {
      var r :| r in todo;
      var g1 := AddWaiters(g, todo[r]);
      ghost var more := done[r := todo[r]];
      AddWaitersMeans(done, g, r, todo[r], g1);
      assert todo.Keys - {r} < todo.Keys;
      g, done, todo := g1, more, todo - {r};
    }
    assert done == resources;
  }

  /** The inner loop: every waiter of one resource points at its other holders. */
  method AddWaiters(g0: Graph, e: Entry) returns (g: Graph)
    ensures forall u: TxId :: u in g <==> u in g0 || u in e.waiters
    ensures forall u: TxId, v: TxId :: Edge(g, u, v) <==> Edge(g0, u, v) || (u in e.waiters && v in e.holders && v != u)
  {
    g := g0;
    var todo := e.waiters;
    while todo != {}
      invariant todo <= e.waiters
      invariant forall u: TxId :: u in g <==> u in g0 || u in e.waiters - todo
      invariant forall u: TxId, v: TxId :: Edge(g, u, v) <==>
                  Edge(g0, u, v) || (u in e.waiters - todo && v in e.holders && v != u)
      decreases |todo|
    {
      var w :| w in todo;
      var others := e.holders.Keys - {w};
      ghost var before := g;
      g := g[w := (if w in g then g[w] else {}) + others];
      todo := todo - {w};
      assert forall u: TxId, v: TxId :: Edge(g, u, v) <==> Edge(before, u, v) || (u == w && v in others);
      hide Edge;
    }
  }

  lemma AddWaitersMeans(done: Resources, g: Graph, r: Resource, e: Entry, g1: Graph)
    requires r !in done || done[r] == e
    requires forall u: TxId :: u in g <==> Waits(done, u)
    requires forall u: TxId, v: TxId :: Edge(g, u, v) <==> WaitsFor(done, u, v)
    requires forall u: TxId :: u in g1 <==> u in g || u in e.waiters
    requires forall u: TxId, v: TxId :: Edge(g1, u, v) <==>
               Edge(g, u, v) || (u in e.waiters && v in e.holders && v != u)
    ensures forall u: TxId :: u in g1 <==> Waits(done[r := e], u)
    ensures forall u: TxId, v: TxId :: Edge(g1, u, v) <==> WaitsFor(done[r := e], u, v)
  {
    var more := done[r := e];
    assert more[r] == e;
    forall u ensures Waits(more, u) <==> Waits(done, u) || u in e.waiters {
      assert forall q :: q in done ==> more[q] == done[q];
    }
    forall u: TxId, v: TxId
      ensures WaitsFor(more, u, v) <==> WaitsFor(done, u, v) || (u in e.waiters && v in e.holders && v != u)
    {
      assert forall q :: q in done ==> more[q] == done[q];
    }
  }

  // ---- cycles ----

  lemma CycleTurned(g: Graph, c: seq<TxId>, j: nat)
    requires IsCycle(g, c) && j < |c|
    ensures IsCycle(g, c[j..] + c[..j]) && OnCycle(g, c[j])
  {
    var d := c[j..] + c[..j];
    forall i | 0 <= i < |d| - 1 ensures Edge(g, d[i], d[i + 1]) {
      if i + j < |c| - 1 {
      } else if i + j == |c| - 1 {
        assert d[i] == c[|c| - 1] && d[i + 1] == c[0];
      } else {
        assert d[i] == c[i + j - |c|] && d[i + 1] == c[i + 1 + j - |c|];
      }
    }
    assert j == 0 ==> d == c;
  }

  lemma PathCloses(g: Graph, path: seq<TxId>, i: nat, nxt: TxId, v: TxId)
    requires IsPath(g, path) && i < |path| && path[i] == nxt && Edge(g, path[|path| - 1], nxt)
    requires v in path[i..]
    ensures OnCycle(g, v) && Leads(g, path[0], v)
  {
    var c := path[i..];
    assert IsCycle(g, c);
    var j :| 0 <= j < |c| && c[j] == v;
    CycleTurned(g, c, j);
    var p := path[..i + j + 1];
    assert IsPath(g, p) && p[0] == path[0] && p[|p| - 1] == v;
  }

  lemma PathGrows(g: Graph, path: seq<TxId>, v: TxId)
    requires IsPath(g, path) && Edge(g, path[|path| - 1], v)
    ensures IsPath(g, path + [v])
  {
    var p := path + [v];
    forall i | 0 <= i < |p| - 1 ensures Edge(g, p[i], p[i + 1]) {
      assert i < |path| - 1 || i == |path| - 1;
    }
  }

  /** A path from inside a closed set stays inside. */
  lemma {:induction false} PathStays(g: Graph, inside: set<TxId>, p: seq<TxId>, i: nat)
    requires IsPath(g, p) && p[0] in inside && i < |p|
    requires forall u: TxId, v: TxId :: u in inside && Edge(g, u, v) ==> v in inside
    ensures p[i] in inside
  {
    if i > 0 {
      PathStays(g, inside, p, i - 1);
      assert Edge(g, p[i - 1], p[i - 1 + 1]);
    }
  }

  lemma ClosedHasNoCycle(g: Graph, inside: set<TxId>, start: TxId)
    requires start in inside
    requires forall u: TxId, v: TxId :: u in inside && Edge(g, u, v) ==> v in inside && v != start
    ensures !OnCycle(g, start)
  {
    forall p | IsCycle(g, p) && p[0] == start ensures false {
      assert IsPath(g, p);
      PathStays(g, inside, p, |p| - 1);
    }
  }

  // ---- depth first ----

  ghost predicate IsBranch(g: Graph, start: TxId, b: Branch) {
    IsPath(g, b.1) && b.1[0] == start && b.1[|b.1| - 1] == b.0
  }

  ghost predicate Branches(g: Graph, start: TxId, bs: seq<Branch>) {
    forall i :: 0 <= i < |bs| ==> IsBranch(g, start, bs[i])
  }

  ghost function Tops(bs: seq<Branch>): set<TxId> {
    set i | 0 <= i < |bs| :: bs[i].0
  }

  function SeenFrom(seen: map<TxId, set<TxId>>, u: TxId): set<TxId> {
    if u in seen then seen[u] else {}
  }

  /** The edges not yet followed; each is followed once. */
  ghost predicate Unfollowed(g: Graph, seen: map<TxId, set<TxId>>, left: set<(TxId, TxId)>) {
    forall u: TxId, v: TxId :: Edge(g, u, v) && v !in SeenFrom(seen, u) ==> (u, v) in left
  }

  ghost predicate Caught(g: Graph, start: TxId, victims: set<TxId>) {
    forall v: TxId :: v in victims ==> OnCycle(g, v) && Leads(g, start, v)
  }

  /** One popped entry: its successors are pushed, or a cycle is found and the
      rest of them dropped. */
  method Expand(g: Graph, start: TxId, b: Branch, stack0: seq<Branch>, seen0: map<TxId, set<TxId>>,
                ghost left0: set<(TxId, TxId)>)
    returns (stack: seq<Branch>, seen: map<TxId, set<TxId>>, victims: set<TxId>, ghost left: set<(TxId, TxId)>)
    requires IsBranch(g, start, b) && Branches(g, start, stack0) && Unfollowed(g, seen0, left0)
    ensures Branches(g, start, stack) && Unfollowed(g, seen, left) && stack0 <= stack
    ensures left <= left0 && (left == left0 ==> stack == stack0)
    ensures Caught(g, start, victims)
    ensures victims == {} ==> forall v: TxId :: Edge(g, b.0, v) ==> v in SeenFrom(seen, b.0) && v !in b.1
    ensures forall u: TxId :: u != b.0 ==> SeenFrom(seen, u) == SeenFrom(seen0, u)
    ensures forall v: TxId :: v in SeenFrom(seen, b.0) ==> v in SeenFrom(seen0, b.0) || v in Tops(stack)
  {
    var (node, path) := b;
    stack, seen, victims, left := stack0, seen0, {}, left0;
    var todo := if node in g then g[node] else {};
    while todo != {}
      invariant forall v: TxId :: v in todo ==> Edge(g, node, v)
      invariant victims == {}
      invariant forall v: TxId :: Edge(g, node, v) ==> v in todo || (v in SeenFrom(seen, node) && v !in path)
      invariant Branches(g, start, stack) && Unfollowed(g, seen, left) && stack0 <= stack
      invariant left <= left0 && (left == left0 ==> stack == stack0)
      invariant forall u: TxId :: u != node ==> SeenFrom(seen, u) == SeenFrom(seen0, u)
      invariant forall v: TxId :: v in SeenFrom(seen, node) ==> v in SeenFrom(seen0, node) || v in Tops(stack)
      decreases |todo|
    {
      var nxt :| nxt in todo;
      todo := todo - {nxt};
      if nxt in path {
        var i := IndexOf(path, nxt);
        victims := set v | v in path[i..];
        forall v | v in victims ensures OnCycle(g, v) && Leads(g, start, v) {
          PathCloses(g, path, i, nxt, v);
        }
        assert path[i] in victims;
        break;
      }
      if nxt !in SeenFrom(seen, node) {
        stack, seen, left := Push(g, start, b, nxt, stack, seen, left);
      }
    }
  }

  method Push(g: Graph, start: TxId, b: Branch, nxt: TxId, stack0: seq<Branch>, seen0: map<TxId, set<TxId>>,
              ghost left0: set<(TxId, TxId)>)
    returns (stack: seq<Branch>, seen: map<TxId, set<TxId>>, ghost left: set<(TxId, TxId)>)
    requires IsBranch(g, start, b) && Branches(g, start, stack0) && Unfollowed(g, seen0, left0)
    requires Edge(g, b.0, nxt) && nxt !in SeenFrom(seen0, b.0)
    ensures Branches(g, start, stack) && Unfollowed(g, seen, left)
    ensures stack == stack0 + [(nxt, b.1 + [nxt])]
    ensures left < left0
    ensures SeenFrom(seen, b.0) == SeenFrom(seen0, b.0) + {nxt}
    ensures forall u: TxId :: u != b.0 ==> SeenFrom(seen, u) == SeenFrom(seen0, u)
    ensures nxt in Tops(stack) && Tops(stack0) <= Tops(stack)
  {
    PathGrows(g, b.1, nxt);
    seen := seen0[b.0 := SeenFrom(seen0, b.0) + {nxt}];
    stack := stack0 + [(nxt, b.1 + [nxt])];
    left := left0 - {(b.0, nxt)};
    TopsOfPush(stack0, (nxt, b.1 + [nxt]));
  }

  lemma TopsOfPush(bs: seq<Branch>, b: Branch)
    ensures Tops(bs + [b]) == Tops(bs) + {b.0}
  {
    var cs := bs + [b];
    assert cs[|bs|] == b;
    forall x | x in Tops(bs) ensures x in Tops(cs) {
      var i :| 0 <= i < |bs| && bs[i].0 == x;
      assert cs[i].0 == x;
    }
  }

  /** The search from one start.  As long as nothing is caught, every node popped
      has all its successors popped or waiting on the stack. */
  ghost predicate Explored(g: Graph, start: TxId, done: set<TxId>, stack: seq<Branch>, seen: map<TxId, set<TxId>>) {
    && start in done + Tops(stack)
    && (forall u: TxId, v: TxId :: v in SeenFrom(seen, u) ==> v in done + Tops(stack))
    && (forall u: TxId, v: TxId :: u in done && Edge(g, u, v) ==> v in SeenFrom(seen, u) && v != start)
  }

  lemma ExploredMore(g: Graph, start: TxId, done: set<TxId>, stack: seq<Branch>, seen: map<TxId, set<TxId>>,
                     b: Branch, stack1: seq<Branch>, seen1: map<TxId, set<TxId>>)
    requires Explored(g, start, done, stack + [b], seen) && stack <= stack1
    requires IsBranch(g, start, b)
    requires forall v: TxId :: Edge(g, b.0, v) ==> v in SeenFrom(seen1, b.0) && v !in b.1
    requires forall u: TxId :: u != b.0 ==> SeenFrom(seen1, u) == SeenFrom(seen, u)
    requires forall v: TxId :: v in SeenFrom(seen1, b.0) ==> v in SeenFrom(seen, b.0) || v in Tops(stack1)
    ensures Explored(g, start, done + {b.0}, stack1, seen1)
  {
    TopsOfPush(stack, b);
    assert Tops(stack) <= Tops(stack1) by {
      forall x | x in Tops(stack) ensures x in Tops(stack1) {
        var i :| 0 <= i < |stack| && stack[i].0 == x;
        assert stack1[i] == stack[i];
      }
    }
    assert start in b.1;
    hide Tops, Edge, SeenFrom;
    forall u: TxId, v: TxId | v in SeenFrom(seen1, u) ensures v in done + {b.0} + Tops(stack1) {
      assert v in SeenFrom(seen, u) || v in Tops(stack1);
      assert v in SeenFrom(seen, u) ==> v in done + Tops(stack + [b]);
    }
    forall u: TxId, v: TxId | u in done + {b.0} && Edge(g, u, v) ensures v in SeenFrom(seen1, u) && v != start {
      assert u != b.0 ==> v in SeenFrom(seen, u) && v != start;
    }
  }

  method Search(g: Graph, start: TxId) returns (victims: set<TxId>)
    ensures Caught(g, start, victims)
    ensures victims == {} ==> !OnCycle(g, start)
  {
    victims := {};
    var stack: seq<Branch> := [(start, [start])];
    var seen: map<TxId, set<TxId>> := map[];
    ghost var left := set u, v | u in g && v in g[u] :: (u, v);
    ghost var done: set<TxId> := {};
    assert stack[0].0 in Tops(stack);
    while stack != []
      invariant Branches(g, start, stack) && Unfollowed(g, seen, left)
      invariant Caught(g, start, victims)
      invariant victims == {} ==> Explored(g, start, done, stack, seen)
      decreases left, |stack|
    {
      var b := stack[|stack| - 1];
      ghost var rest := stack[..|stack| - 1];
      assert stack == rest + [b];
      ghost var seen0 := seen;
      var stack1, seen1, caught, left1 := Expand(g, start, b, stack[..|stack| - 1], seen, left);
      if victims == {} && caught == {} {
        ExploredMore(g, start, done, rest, seen, b, stack1, seen1);
      }
      stack, seen, left := stack1, seen1, left1;
      victims := victims + caught;
      done := done + {b.0};
    }
    if victims == {} {
      assert Tops(stack) == {};
      ClosedHasNoCycle(g, done, start);
    }
  }

  /** `_detect_deadlock` on a graph: nothing exactly when no transaction is on a
      cycle; otherwise the youngest of the transactions found, all of them on
      cycles and at least one downstream of every deadlocked transaction. */
  method Detect(g: Graph) returns (victim: Option<TxId>, ghost found: set<TxId>)
    ensures victim == None <==> forall v: TxId :: !OnCycle(g, v)
    ensures forall v: TxId :: v in found ==> OnCycle(g, v)
    ensures victim.Some? ==> victim.value in found && forall v: TxId :: v in found ==> v <= victim.value
    ensures forall v: TxId :: OnCycle(g, v) ==> exists w :: w in found && Leads(g, v, w)
  {
    var victims := {};
    var starts := g.Keys;
    while starts != {}
      invariant starts <= g.Keys
      invariant forall v: TxId :: v in victims ==> OnCycle(g, v)
      invariant forall v: TxId :: v in g && v !in starts && OnCycle(g, v) ==> exists w :: w in victims && Leads(g, v, w)
      decreases |starts|
    {
      var start :| start in starts;
      var caught := Search(g, start);
      assert OnCycle(g, start) ==> caught != {};
      assert caught != {} ==> exists w :: w in caught;
      victims := victims + caught;
      starts := starts - {start};
    }
    found := victims;
    forall v: TxId | OnCycle(g, v) ensures v in g {
      OnCycleIsWaiting(g, v);
    }
    if victims == {} {
      victim := None;
    } else {
      var m := Highest(victims);
      victim := Some(m);
    }
  }

  lemma OnCycleIsWaiting(g: Graph, v: TxId)
    requires OnCycle(g, v)
    ensures v in g && exists w :: Edge(g, v, w)
  {
    var p :| IsCycle(g, p) && p[0] == v;
    assert |p| > 1 ==> Edge(g, p[0], p[1]);
  }

  /** The victim of a deadlock among these resources. */
  method DetectDeadlock(resources: Resources) returns (victim: Option<TxId>, ghost g: Graph)
    ensures forall u: TxId, v: TxId :: Edge(g, u, v) <==> WaitsFor(resources, u, v)
    ensures victim == None <==> forall v: TxId :: !OnCycle(g, v)
    ensures victim.Some? ==> OnCycle(g, victim.value) && Waits(resources, victim.value)
  {
    var graph := BuildGraph(resources);
    g := graph;
    ghost var found;
    victim, found := Detect(graph);
    if victim.Some? {
      OnCycleIsWaiting(g, victim.value);
    }
  }

  // ---- breadth first ----

  /** What is known while the queue runs.  `depth` is the length of the path by
      which a node was first reached; `done` the nodes already taken off. */
  ghost predicate Level(g: Graph, t: TxId, queue: seq<Branch>, seen: set<TxId>, done: set<TxId>,
                        depth: map<TxId, nat>) {
    && Branches(g, t, queue)
    && seen == done + Tops(queue)
    && depth.Keys == seen && t in seen && depth[t] == 1
    && (forall i :: 0 <= i < |queue| ==> queue[i].0 in depth && depth[queue[i].0] == |queue[i].1|)
    && (forall i, j :: 0 <= i <= j < |queue| ==> |queue[i].1| <= |queue[j].1| <= |queue[0].1| + 1)
    && (forall u: TxId :: u in done && queue != [] ==> depth[u] <= |queue[0].1|)
    && (forall u: TxId, v: TxId :: u in done && Edge(g, u, v) ==> v in seen && v != t && depth[v] <= depth[u] + 1)
  }

  /** A path that has left the finished nodes is at least as long as the queue's
      first. */
  lemma {:induction false} FirstUnfinished(g: Graph, t: TxId, queue: seq<Branch>, seen: set<TxId>, done: set<TxId>,
                                           depth: map<TxId, nat>, p: seq<TxId>, i: nat)
    requires Level(g, t, queue, seen, done, depth)
    requires IsPath(g, p) && p[0] == t && i < |p|
    ensures (exists j :: 0 <= j < i && p[j] !in done) || (p[i] in seen && depth[p[i]] <= i + 1)
  {
    if i > 0 {
      FirstUnfinished(g, t, queue, seen, done, depth, p, i - 1);
      assert Edge(g, p[i - 1], p[i - 1 + 1]);
      if p[i - 1] !in done {
      } else if j :| 0 <= j < i - 1 && p[j] !in done {
      } else {
        assert p[i] in seen && depth[p[i]] <= depth[p[i - 1]] + 1;
      }
    }
  }

  lemma {:induction false} LeavesDone(g: Graph, t: TxId, queue: seq<Branch>, seen: set<TxId>, done: set<TxId>,
                   depth: map<TxId, nat>, p: seq<TxId>, i: nat)
    requires Level(g, t, queue, seen, done, depth)
    requires IsPath(g, p) && p[0] == t && i < |p| && p[i] !in done
    ensures queue != [] && |queue[0].1| <= i + 1
    decreases i
  {
    if j :| 0 <= j < i && p[j] !in done {
      LeavesDone(g, t, queue, seen, done, depth, p, j);
    } else {
      FirstUnfinished(g, t, queue, seen, done, depth, p, i);
      assert p[i] in Tops(queue);
      var k :| 0 <= k < |queue| && queue[k].0 == p[i];
    }
  }

  /** Every cycle through `t` is at least as long as the path at the front. */
  lemma FrontIsShortest(g: Graph, t: TxId, queue: seq<Branch>, seen: set<TxId>, done: set<TxId>,
                        depth: map<TxId, nat>, c: seq<TxId>)
    requires Level(g, t, queue, seen, done, depth)
    requires IsCycle(g, c) && c[0] == t
    ensures queue != [] && |queue[0].1| <= |c|
  {
    assert Edge(g, c[|c| - 1], t);
    assert c[|c| - 1] !in done;
    LeavesDone(g, t, queue, seen, done, depth, c, |c| - 1);
  }

  /** `_cycle_for`: a shortest cycle through `t`; `[t]` when there is none. */
  method CycleFor(g: Graph, t: TxId) returns (cycle: seq<TxId>)
    ensures OnCycle(g, t) ==> IsCycle(g, cycle) && cycle[0] == t
    ensures forall c :: IsCycle(g, c) && c[0] == t ==> |cycle| <= |c|
    ensures !OnCycle(g, t) ==> cycle == [t]
  {
    var queue: seq<Branch> := [(t, [t])];
    var seen := {t};
    ghost var done: set<TxId> := {};
    ghost var depth: map<TxId, nat> := map[t := 1];
    ghost var nodes := Nodes(g) + {t};
    LevelStart(g, t);
    hide Level, Nodes, Tops, Edge;
    while queue != []
      invariant Level(g, t, queue, seen, done, depth) && seen <= nodes
      decreases nodes - seen, |queue|
    {
      var (node, path) := queue[0];
      var found, queue1, seen1, depth1 := Spread(g, t, queue, seen, done, depth);
      if found {
        FrontCloses(g, t, queue, seen, done, depth);
        return path;
      }
      queue, seen, depth := queue1, seen1, depth1;
      done := done + {node};
    }
    forall c | IsCycle(g, c) && c[0] == t ensures false {
      FrontIsShortest(g, t, queue, seen, done, depth, c);
    }
    cycle := [t];
  }

  lemma LevelStart(g: Graph, t: TxId)
    ensures Level(g, t, [(t, [t])], {t}, {}, map[t := 1])
  {
    TopsOfPush([], (t, [t]));
    assert [] + [(t, [t])] == [(t, [t])];
  }

  lemma FrontCloses(g: Graph, t: TxId, queue: seq<Branch>, seen: set<TxId>, done: set<TxId>, depth: map<TxId, nat>)
    requires Level(g, t, queue, seen, done, depth) && queue != [] && Edge(g, queue[0].0, t)
    ensures IsCycle(g, queue[0].1) && queue[0].1[0] == t && OnCycle(g, t)
    ensures forall c :: IsCycle(g, c) && c[0] == t ==> |queue[0].1| <= |c|
  {
    assert IsBranch(g, t, queue[0]);
    assert IsCycle(g, queue[0].1);
    forall c | IsCycle(g, c) && c[0] == t ensures |queue[0].1| <= |c| {
      FrontIsShortest(g, t, queue, seen, done, depth, c);
    }
  }

  ghost function Nodes(g: Graph): set<TxId> {
    g.Keys + set u, v | u in g && v in g[u] :: v
  }

  /** The level invariant while the front's successors are being added. */
  ghost predicate Spreading(g: Graph, t: TxId, front: Branch, rest: seq<Branch>, seen: set<TxId>, done: set<TxId>,
                            depth: map<TxId, nat>, todo: set<TxId>) {
    && IsBranch(g, t, front) && Branches(g, t, rest)
    && seen == done + {front.0} + Tops(rest)
    && depth.Keys == seen && t in seen && depth[t] == 1 && front.0 in depth && depth[front.0] == |front.1|
    && (forall i :: 0 <= i < |rest| ==> rest[i].0 in depth && depth[rest[i].0] == |rest[i].1|)
    && (forall i :: 0 <= i < |rest| ==> |front.1| <= |rest[i].1| <= |front.1| + 1)
    && (forall i, j :: 0 <= i <= j < |rest| ==> |rest[i].1| <= |rest[j].1|)
    && (forall u: TxId :: u in done ==> depth[u] <= |front.1|)
    && (forall u: TxId, v: TxId :: u in done && Edge(g, u, v) ==> v in seen && v != t && depth[v] <= depth[u] + 1)
    && (forall v: TxId :: Edge(g, front.0, v) && v !in todo ==> v in seen && v != t && depth[v] <= |front.1| + 1)
  }

  method Spread(g: Graph, t: TxId, queue: seq<Branch>, seen0: set<TxId>, ghost done: set<TxId>,
                ghost depth0: map<TxId, nat>)
    returns (found: bool, rest: seq<Branch>, seen: set<TxId>, ghost depth: map<TxId, nat>)
    requires queue != [] && Level(g, t, queue, seen0, done, depth0) && seen0 <= Nodes(g) + {t}
    ensures found ==> Edge(g, queue[0].0, t)
    ensures !found ==> Level(g, t, rest, seen, done + {queue[0].0}, depth)
    ensures !found ==> seen0 <= seen <= Nodes(g) + {t} && (seen == seen0 ==> |rest| < |queue|)
  {
    var (node, path) := queue[0];
    ghost var front := queue[0];
    rest, seen, depth := queue[1..], seen0, depth0;
    var todo := if node in g then g[node] else {};
    SpreadStart(g, t, queue, seen0, done, depth0, todo);
    while todo != {}
      invariant todo <= (if node in g then g[node] else {})
      invariant Spreading(g, t, front, rest, seen, done, depth, todo)
      invariant seen0 <= seen <= Nodes(g) + {t} && (seen == seen0 ==> |rest| < |queue|)
      decreases |todo|
    {
      var nxt :| nxt in todo;
      if nxt == t {
        return true, rest, seen, depth;
      }
      if nxt !in seen {
        SpreadNew(g, t, front, rest, seen, done, depth, todo, nxt);
        seen := seen + {nxt};
        rest := rest + [(nxt, path + [nxt])];
        depth := depth[nxt := |path| + 1];
        todo := todo - {nxt};
      } else {
        SpreadOld(g, t, front, rest, seen, done, depth, todo, nxt);
        todo := todo - {nxt};
      }
    }
    found := false;
    SpreadEnd(g, t, front, rest, seen, done, depth);
  }

  lemma SpreadStart(g: Graph, t: TxId, queue: seq<Branch>, seen: set<TxId>, done: set<TxId>, depth: map<TxId, nat>,
                    todo: set<TxId>)
    requires queue != [] && Level(g, t, queue, seen, done, depth)
    requires todo == if queue[0].0 in g then g[queue[0].0] else {}
    ensures Spreading(g, t, queue[0], queue[1..], seen, done, depth, todo)
  {
    TopsOfPop(queue);
    var rest := queue[1..];
    assert forall i :: 0 <= i < |rest| ==> rest[i] == queue[i + 1];
    assert forall v: TxId :: Edge(g, queue[0].0, v) ==> v in todo;
    hide IsBranch, Tops, Edge;
  }

  lemma TopsOfPop(bs: seq<Branch>)
    requires bs != []
    ensures Tops(bs) == {bs[0].0} + Tops(bs[1..])
  {
    var cs := bs[1..];
    forall x | x in Tops(bs) ensures x in {bs[0].0} + Tops(cs) {
      var i :| 0 <= i < |bs| && bs[i].0 == x;
      assert i > 0 ==> cs[i - 1].0 == x;
    }
    forall x | x in Tops(cs) ensures x in Tops(bs) {
      var i :| 0 <= i < |cs| && cs[i].0 == x;
      assert bs[i + 1].0 == x;
    }
  }

  lemma SpreadNew(g: Graph, t: TxId, front: Branch, rest: seq<Branch>, seen: set<TxId>, done: set<TxId>,
                  depth: map<TxId, nat>, todo: set<TxId>, nxt: TxId)
    requires Spreading(g, t, front, rest, seen, done, depth, todo)
    requires Edge(g, front.0, nxt) && nxt !in seen
    ensures Spreading(g, t, front, rest + [(nxt, front.1 + [nxt])], seen + {nxt}, done,
                      depth[nxt := |front.1| + 1], todo - {nxt})
  {
    PathGrows(g, front.1, nxt);
    TopsOfPush(rest, (nxt, front.1 + [nxt]));
    hide IsPath, Edge, Tops;
  }

  lemma SpreadOld(g: Graph, t: TxId, front: Branch, rest: seq<Branch>, seen: set<TxId>, done: set<TxId>,
                  depth: map<TxId, nat>, todo: set<TxId>, nxt: TxId)
    requires Spreading(g, t, front, rest, seen, done, depth, todo)
    requires nxt != t && nxt in seen
    ensures Spreading(g, t, front, rest, seen, done, depth, todo - {nxt})
  {
  }

  lemma SpreadEnd(g: Graph, t: TxId, front: Branch, rest: seq<Branch>, seen: set<TxId>, done: set<TxId>,
                  depth: map<TxId, nat>)
    requires Spreading(g, t, front, rest, seen, done, depth, {})
    ensures Level(g, t, rest, seen, done + {front.0}, depth)
  {
  }

  // ---- what the graph says about locks ----

  /** Everybody in `group` waits for a lock that the members of the group alone
      keep it from: whatever the others do, none of them can go on. */
  ghost predicate Stuck(resources: Resources, group: set<TxId>) {
    forall u: TxId :: u in group ==> exists r, m :: Stopped(resources, group, u, r, m)
  }

  ghost predicate Stopped(resources: Resources, group: set<TxId>, u: TxId, r: Resource, m: Mode) {
    && r in resources && u in resources[r].waiters
    && !Grantable(map v | v in resources[r].holders && v in group :: resources[r].holders[v], r.Row?, m, u)
  }

  ghost predicate PointsInto(g: Graph, group: set<TxId>, u: TxId) {
    exists v: TxId :: v in group && Edge(g, u, v)
  }

  lemma StoppedWaits(resources: Resources, group: set<TxId>, u: TxId, r: Resource, m: Mode)
    requires Stopped(resources, group, u, r, m)
    ensures exists v: TxId :: v in group && WaitsFor(resources, u, v)
  {
    var inside := map v | v in resources[r].holders && v in group :: resources[r].holders[v];
    var v: TxId :| v in inside && v != u && Clash(r.Row?, inside[v], m);
    assert WaitsFor(resources, u, v);
  }

  /** Every real deadlock shows up in the graph as a cycle within it. */
  lemma DeadlockIsSeen(resources: Resources, g: Graph, group: set<TxId>)
    requires forall u: TxId, v: TxId :: Edge(g, u, v) <==> WaitsFor(resources, u, v)
    requires group != {} && Stuck(resources, group)
    ensures exists v: TxId :: v in group && OnCycle(g, v)
  {
    hide WaitsFor, Edge, Stopped, OnCycle;
    forall u: TxId | u in group ensures PointsInto(g, group, u) {
      var r, m :| Stopped(resources, group, u, r, m);
      StoppedWaits(resources, group, u, r, m);
      var v: TxId :| v in group && WaitsFor(resources, u, v);
      assert Edge(g, u, v);
    }
    var u: TxId :| u in group;
    WalkCloses(g, group, [u], group);
  }

  lemma WalkCloses(g: Graph, group: set<TxId>, p: seq<TxId>, unused: set<TxId>)
    requires IsPath(g, p) && p[|p| - 1] in group
    requires forall x: TxId :: x in group ==> x in p || x in unused
    requires forall u: TxId :: u in group ==> PointsInto(g, group, u)
    ensures exists v: TxId :: v in group && OnCycle(g, v)
    decreases unused
  {
    var last := p[|p| - 1];
    assert PointsInto(g, group, last);
    var w: TxId :| w in group && Edge(g, last, w);
    hide OnCycle, PointsInto, Edge;
    if w in p {
      var i :| 0 <= i < |p| && p[i] == w;
      PathCloses(g, p, i, w, w);
    } else {
      PathGrows(g, p, w);
      WalkCloses(g, group, p + [w], unused - {w});
    }
  }

  /** In the states the engine reaches, a waiter refused because of one holder is
      refused because of every other holder, so that each edge drawn for it is a
      real conflict. */
  lemma EdgesAreConflicts(s: State, r: Resource, u: TxId, m: Mode, v: TxId)
    requires Safe(s) && (if r.Row? then m == X else m != IS)
    requires !Grantable(At(s.resources, r).holders, r.Row?, m, u)
    requires v != u && s.Held(r, v).Some?
    ensures Clash(r.Row?, s.Held(r, v).value, m)
  {
    GrantableMeans(s, r, r.Row?, m, u);
    hide Grantable, BooksMatch, RowsIntended, RowsExclusive;
    var w: TxId :| w != u && s.Held(r, w).Some? && Clash(r.Row?, s.Held(r, w).value, m);
    if r.Table? {
      assert s.Held(Table(r.table), v) != Some(IS) && s.Held(Table(r.table), w) != Some(IS);
      assert w != v ==> Compatible(s.Held(Table(r.table), v).value, s.Held(Table(r.table), w).value);
    }
  }
}
