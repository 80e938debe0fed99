/**
 Upgrade routes as walks in a release graph, and the planner's breadth-first
 search for one with the fewest hops.
 */
module Routes {
  import opened Common
  import opened Sorting

  /** What an installation can be: a release, or a state older than releases. */
  datatype Node = Genesis(id: nat) | Release(sequence: nat, manifest: nat)

  type Edge = (Node, Node)

  const MAX_HOPS := 32

  ghost predicate IsWalk(edges: set<Edge>, r: seq<Node>) {
    r != [] && forall k | 0 <= k < |r| - 1 :: (r[k], r[k + 1]) in edges
  }

  ghost predicate Connects(edges: set<Edge>, a: Node, b: Node, r: seq<Node>) {
    IsWalk(edges, r) && r[0] == a && r[|r| - 1] == b
  }

  /** No route is shorter than `d` hops. */
  ghost predicate AtLeast(edges: set<Edge>, a: Node, b: Node, d: int) {
    forall r | Connects(edges, a, b, r) :: Hops(r) >= d
  }

  ghost predicate Shortest(edges: set<Edge>, a: Node, b: Node, r: seq<Node>) {
    Connects(edges, a, b, r) && AtLeast(edges, a, b, Hops(r))
  }

  function Hops(r: seq<Node>): int {
    |r| - 1
  }

  // ---- The frontier of a search ------------------------------------------------------------------

  /** Every edge out of a finished node leads to a node whose recorded depth is at most one more. */
  ghost predicate Closed(edges: set<Edge>, depth: map<Node, nat>, finished: set<Node>) {
    && finished <= depth.Keys
    && forall e | e in edges && e.0 in finished :: e.1 in depth && depth[e.1] <= depth[e.0] + 1
  }

  /** A walk from the root stays finished, with depths below its steps, up to where it leaves through the frontier. */
  lemma {:induction false} WalkMeetsFrontier(edges: set<Edge>, depth: map<Node, nat>, finished: set<Node>, root: Node, r: seq<Node>)
    returns (j: nat)
    requires Closed(edges, depth, finished) && root in depth && depth[root] == 0
    requires IsWalk(edges, r) && r[0] == root
    ensures j <= |r| && forall k | 0 <= k < j :: r[k] in finished && depth[r[k]] <= k
    ensures j < |r| ==> r[j] in depth && r[j] !in finished && depth[r[j]] <= j
    decreases |r|
  {
    if |r| == 1 {
      j := if root in finished then 1 else 0;
    } else {
      var front := r[..|r| - 1];
      assert forall k | 0 <= k < |front| - 1 :: (front[k], front[k + 1]) == (r[k], r[k + 1]);
      j := WalkMeetsFrontier(edges, depth, finished, root, front);
      if j == |front| {
        var last := |r| - 1;
        assert (r[last - 1], r[last]) in edges;
        if r[last] in finished { j := j + 1; }
      }
    }
  }

  // ---- Breadth-first search ------------------------------------------------------------------------

  function Rank(v: Node): nat {
    if v.Genesis? then 0 else v.sequence + 1
  }

  predicate EarlierRelease(a: Node, b: Node) {
    Rank(a) <= Rank(b)
  }

  function Last(r: seq<Node>): Node
    requires r != []
  {
    r[|r| - 1]
  }

  /** The targets of a node's edges. */
  method Adjacent(edges: set<Edge>, u: Node) returns (s: seq<Node>)
    ensures forall v :: v in s <==> (u, v) in edges
    ensures SortedBy(s, EarlierRelease)
  {
    s := [];
    var left := edges;
    while left != {}
      invariant left <= edges
      invariant forall v :: v in s <==> (u, v) in edges && (u, v) !in left
      decreases left
    {
      var e :| e in left;
      if e.0 == u { s := s + [e.1]; }
      left := left - {e};
    }
    ghost var unsorted := s;
    SortSorts(s, EarlierRelease);
    s := Sort(s, EarlierRelease);
    forall v ensures v in s <==> v in unsorted { assert v in multiset(s) <==> v in multiset(unsorted); }
  }

  function Nodes(edges: set<Edge>, source: Node): set<Node> {
    {source} + set e | e in edges :: e.1
  }

  /** No walk is queued twice for one node. */
  ghost predicate Distinct(queue: seq<seq<Node>>) {
    forall i, j | 0 <= i < j < |queue| :: Last0(queue[i]) != Last0(queue[j])
  }

  /** The search's bookkeeping: which nodes are seen at which depth, and the queued walks that end at the unfinished ones. */
  ghost predicate Searching(edges: set<Edge>, source: Node, target: Node, queue: seq<seq<Node>>, depth: map<Node, nat>, finished: set<Node>) {
    && source in depth && depth[source] == 0 && target !in depth && depth.Keys <= Nodes(edges, source)
    && Closed(edges, depth, finished) && Distinct(queue) && Ordered(queue)
    && Queues(edges, source, queue, depth, finished) && Covers(queue, depth, finished) && Ahead(queue, depth, finished)
  }

  ghost predicate Queues(edges: set<Edge>, source: Node, queue: seq<seq<Node>>, depth: map<Node, nat>, finished: set<Node>) {
    forall r | r in queue :: Connects(edges, source, Last0(r), r) && Queued(r, depth, finished)
  }

  ghost predicate Covers(queue: seq<seq<Node>>, depth: map<Node, nat>, finished: set<Node>) {
    forall v | v in depth && v !in finished :: exists r | r in queue :: r != [] && Last(r) == v
  }

  ghost predicate Ahead(queue: seq<seq<Node>>, depth: map<Node, nat>, finished: set<Node>) {
    forall u, r | u in finished && u in depth && r in queue :: depth[u] <= Hops(r)
  }

  function Last0(r: seq<Node>): Node {
    if r == [] then Genesis(0) else Last(r)
  }

  ghost predicate Queued(r: seq<Node>, depth: map<Node, nat>, finished: set<Node>) {
    r != [] && Last(r) in depth && Last(r) !in finished && depth[Last(r)] == Hops(r)
  }

  /** Queued walks never get shorter, and the last has at most one hop more than the first. */
  ghost predicate Ordered(queue: seq<seq<Node>>) {
    && (forall i, j | 0 <= i < j < |queue| :: |queue[i]| <= |queue[j]|)
    && (forall i | 0 <= i < |queue| :: |queue[i]| <= |queue[0]| + 1)
  }

  /** With nothing unfinished closer than `d`, the unseen target is farther than `d`. */
  lemma TargetIsFarther(edges: set<Edge>, depth: map<Node, nat>, finished: set<Node>, source: Node, target: Node, d: int, r: seq<Node>)
    requires Closed(edges, depth, finished) && source in depth && depth[source] == 0 && target !in depth
    requires forall v | v in depth && v !in finished :: depth[v] >= d
    requires Connects(edges, source, target, r)
    ensures Hops(r) > d
  {
    var j := WalkMeetsFrontier(edges, depth, finished, source, r);
  }

  /** The bookkeeping while the walk `current` is being extended: it has left the queue, and its first successors are seen. */
  ghost predicate Extending(edges: set<Edge>, source: Node, target: Node, current: seq<Node>, queue: seq<seq<Node>>,
                            depth: map<Node, nat>, finished: set<Node>, seen: seq<Node>) {
    && Searching(edges, source, target, [current] + queue, depth, finished)
    && forall v | v in seen :: v in depth && depth[v] <= Hops(current) + 1
  }

  lemma ExtendKeepsOrder(all: seq<seq<Node>>, w: seq<Node>)
    requires all != [] && Ordered(all) && Distinct(all) && |w| == |all[0]| + 1
    requires forall i | 0 <= i < |all| :: Last0(all[i]) != Last0(w)
    ensures Ordered(all + [w]) && Distinct(all + [w])
  {}

  lemma ExtendKeepsCover(all: seq<seq<Node>>, depth: map<Node, nat>, finished: set<Node>, w: seq<Node>, h: nat)
    requires Covers(all, depth, finished) && w != []
    ensures Covers(all + [w], depth[Last(w) := h], finished)
  {
    forall v | v in depth[Last(w) := h] && v !in finished ensures exists r | r in all + [w] :: r != [] && Last(r) == v {
      if v == Last(w) { assert w in all + [w]; }
      else { var r :| r in all && r != [] && Last(r) == v; assert r in all + [w]; }
    }
  }

  lemma ExtendKeepsQueues(edges: set<Edge>, source: Node, all: seq<seq<Node>>, depth: map<Node, nat>, finished: set<Node>, w: seq<Node>)
    requires Queues(edges, source, all, depth, finished) && Ahead(all, depth, finished) && finished <= depth.Keys
    requires |w| > 1 && w[..|w| - 1] in all && (Last0(w[..|w| - 1]), Last(w)) in edges && Last(w) !in depth
    ensures Queues(edges, source, all + [w], depth[Last(w) := Hops(w)], finished)
    ensures Ahead(all + [w], depth[Last(w) := Hops(w)], finished)
  {
    var front, depth' := w[..|w| - 1], depth[Last(w) := Hops(w)];
    assert Connects(edges, source, Last0(front), front);
    forall k | 0 <= k < |w| - 1 ensures (w[k], w[k + 1]) in edges {
      if k < |front| - 1 { assert (front[k], front[k + 1]) in edges; }
    }
    forall r | r in all + [w] ensures Connects(edges, source, Last0(r), r) && Queued(r, depth', finished) {
      if r in all { assert Queued(r, depth, finished); }
    }
    forall u, r | u in finished && r in all + [w] ensures depth'[u] <= Hops(r) { if r !in all { assert depth[u] <= Hops(front); } }
  }

  lemma QueueGrows(current: seq<Node>, queue: seq<seq<Node>>, w: seq<Node>)
    ensures [current] + (queue + [w]) == [current] + queue + [w] && w in [current] + (queue + [w])
  {
    assert ([current] + queue + [w])[|queue| + 1] == w;
  }

  lemma ExtendKeepsSearch(edges: set<Edge>, source: Node, target: Node, current: seq<Node>, queue: seq<seq<Node>>,
                          depth: map<Node, nat>, finished: set<Node>, seen: seq<Node>, v: Node)
    requires Extending(edges, source, target, current, queue, depth, finished, seen)
    requires (Last0(current), v) in edges && v != target && v !in depth
    ensures Extending(edges, source, target, current, queue + [current + [v]], depth[v := Hops(current) + 1], finished, seen + [v])
  {
    var all, w := [current] + queue, current + [v];
    QueueGrows(current, queue, w);
    assert all[0] == current && current in all && w[..|w| - 1] == current && Queued(current, depth, finished);
    assert v in Nodes(edges, source) && v !in finished;
    LastsAreSeen(all, depth, finished);
    ExtendKeepsOrder(all, w);
    ExtendKeepsCover(all, depth, finished, w, Hops(w));
    ExtendKeepsQueues(edges, source, all, depth, finished, w);
  }

  /** Dropping the first queued walk keeps what is said of each of the others. */
  lemma RestOfQueue(edges: set<Edge>, source: Node, target: Node, current: seq<Node>, queue: seq<seq<Node>>,
                    depth: map<Node, nat>, finished: set<Node>, r: seq<Node>)
    requires Searching(edges, source, target, [current] + queue, depth, finished) && r in queue
    ensures Connects(edges, source, Last0(r), r) && Queued(r, depth, finished + {Last0(current)})
    ensures Hops(current) <= Hops(r) && forall u | u in finished :: depth[u] <= Hops(r)
  {
    var all := [current] + queue;
    var i :| 0 <= i < |queue| && queue[i] == r;
    assert r in all && all[0] == current && all[i + 1] == r;
  }

  lemma RestIsOrdered(current: seq<Node>, queue: seq<seq<Node>>)
    requires Ordered([current] + queue) && Distinct([current] + queue)
    ensures Ordered(queue) && Distinct(queue)
  {
    var all := [current] + queue;
    assert forall i | 0 <= i < |queue| :: queue[i] == all[i + 1];
    assert queue != [] ==> all[0] == current && |all[0]| <= |all[1]|;
  }

  lemma FinishKeepsSearch(edges: set<Edge>, source: Node, target: Node, current: seq<Node>, queue: seq<seq<Node>>,
                          depth: map<Node, nat>, finished: set<Node>, seen: seq<Node>)
    requires Extending(edges, source, target, current, queue, depth, finished, seen)
    requires forall v | (Last0(current), v) in edges :: v in seen
    ensures Searching(edges, source, target, queue, depth, finished + {Last0(current)})
  {
    var u := Last0(current);
    assert current in [current] + queue && Queued(current, depth, finished);
    RestIsOrdered(current, queue);
    forall r | r in queue ensures Connects(edges, source, Last0(r), r) && Queued(r, depth, finished + {u})
      ensures forall w | w in finished + {u} :: depth[w] <= Hops(r)
    {
      RestOfQueue(edges, source, target, current, queue, depth, finished, r);
    }
    forall v | v in depth && v !in finished + {u} ensures exists r | r in queue :: r != [] && Last(r) == v {
      var r :| r in [current] + queue && r != [] && Last(r) == v;
      assert r in queue;
    }
    assert Closed(edges, depth, finished + {u}) by {
      forall e | e in edges && e.0 in finished + {u} ensures e.1 in depth && depth[e.1] <= depth[e.0] + 1 {
        if e.0 == u { assert (u, e.1) in edges; }
      }
    }
  }

  lemma ExtendStep(edges: set<Edge>, source: Node, target: Node, current: seq<Node>, queue: seq<seq<Node>>,
                   depth: map<Node, nat>, finished: set<Node>, adjacent: seq<Node>, i: nat)
    requires i < |adjacent| && Extending(edges, source, target, current, queue, depth, finished, adjacent[..i])
    requires (Last0(current), adjacent[i]) in edges
    ensures adjacent[i] == target ==> Connects(edges, source, target, current + [adjacent[i]])
    ensures adjacent[i] != target && adjacent[i] !in depth ==>
              Extending(edges, source, target, current, queue + [current + [adjacent[i]]], depth[adjacent[i] := Hops(current) + 1],
                        finished, adjacent[..i + 1])
    ensures adjacent[i] != target && adjacent[i] in depth ==>
              Extending(edges, source, target, current, queue, depth, finished, adjacent[..i + 1])
  {
    var v := adjacent[i];
    assert adjacent[..i + 1] == adjacent[..i] + [v] && current in [current] + queue;
    if v == target {
    } else if v !in depth {
      ExtendKeepsSearch(edges, source, target, current, queue, depth, finished, adjacent[..i], v);
    } else {
      SeenIsNear(edges, source, target, current, queue, depth, finished, v);
    }
  }

  lemma SeenIsNear(edges: set<Edge>, source: Node, target: Node, current: seq<Node>, queue: seq<seq<Node>>,
                   depth: map<Node, nat>, finished: set<Node>, v: Node)
    requires Searching(edges, source, target, [current] + queue, depth, finished) && v in depth
    ensures depth[v] <= Hops(current) + 1
  {
    var all := [current] + queue;
    assert current in all;
    if v !in finished {
      var r :| r in all && r != [] && Last(r) == v;
      var i :| 0 <= i < |all| && all[i] == r;
      assert Queued(r, depth, finished) && |all[i]| <= |all[0]| + 1;
    }
  }

  lemma LastsAreSeen(queue: seq<seq<Node>>, depth: map<Node, nat>, finished: set<Node>)
    requires forall r | r in queue :: Queued(r, depth, finished)
    ensures forall i | 0 <= i < |queue| :: Last0(queue[i]) in depth
  {
    forall i | 0 <= i < |queue| ensures Last0(queue[i]) in depth { assert queue[i] in queue; }
  }

  /** With walks queued, every unfinished node is at least as deep as the first of them. */
  lemma FrontIsShallowest(edges: set<Edge>, source: Node, target: Node, queue: seq<seq<Node>>, depth: map<Node, nat>, finished: set<Node>)
    requires Searching(edges, source, target, queue, depth, finished)
    ensures queue != [] ==> forall v | v in depth && v !in finished :: depth[v] >= Hops(queue[0])
    ensures queue == [] ==> forall v | v in depth :: v in finished
  {
    if queue != [] {
      forall v | v in depth && v !in finished ensures depth[v] >= Hops(queue[0]) {
        var r :| r in queue && r != [] && Last(r) == v;
        var i :| 0 <= i < |queue| && queue[i] == r;
        assert Queued(r, depth, finished) && (i > 0 ==> |queue[0]| <= |queue[i]|);
      }
    }
  }

  /** Every route is longer than the walk now in front; none is left when the queue is empty. */
  lemma RoutesAreLonger(edges: set<Edge>, source: Node, target: Node, queue: seq<seq<Node>>, depth: map<Node, nat>, finished: set<Node>)
    requires Searching(edges, source, target, queue, depth, finished)
    ensures AtLeast(edges, source, target, 1 + if queue != [] then Hops(queue[0]) else MAX_HOPS)
  {
    FrontIsShallowest(edges, source, target, queue, depth, finished);
    var d := if queue == [] then MAX_HOPS else Hops(queue[0]);
    forall r | Connects(edges, source, target, r) ensures Hops(r) > d {
      TargetIsFarther(edges, depth, finished, source, target, d, r);
    }
  }

  lemma SearchStarts(edges: set<Edge>, source: Node, target: Node)
    requires source != target
    ensures Searching(edges, source, target, [[source]], map[source := 0], {}) && Tied(edges, source, [[source]], {})
  {
    assert [source] in [[source]] && Last([source]) == source;
    forall p | Connects(edges, source, source, p) && |p| == 1 ensures Precedes([source], p) {
      assert p == [source];
      PrecedesSelf(p);
    }
  }

  lemma Shrinks(edges: set<Edge>, source: Node, target: Node, queue: seq<seq<Node>>, depth: map<Node, nat>, finished: set<Node>)
    requires Searching(edges, source, target, queue, depth, finished) && queue != []
    ensures |Nodes(edges, source) - (finished + {Last0(queue[0])})| < |Nodes(edges, source) - finished|
  {
    assert queue[0] in queue && Queued(queue[0], depth, finished);
    assert Nodes(edges, source) - finished == (Nodes(edges, source) - (finished + {Last0(queue[0])})) + {Last0(queue[0])};
  }

  // ---- Ties ---------------------------------------------------------------------------------------------

  /** No two releases share a sequence. */
  ghost predicate Sequenced(edges: set<Edge>) {
    forall e, f | e in edges && f in edges && Rank(e.1) == Rank(f.1) :: e.1 == f.1
  }

  /** Of two walks with equally many hops, the first goes to the earlier release where they part. */
  predicate Precedes(a: seq<Node>, b: seq<Node>)
    requires |a| == |b|
  {
    a == [] || if a[0] == b[0] then Precedes(a[1..], b[1..]) else Rank(a[0]) < Rank(b[0])
  }

  lemma {:induction false} PrecedesSelf(a: seq<Node>)
    ensures Precedes(a, a)
  {
    if a != [] { PrecedesSelf(a[1..]); }
  }

  lemma {:induction false} PrecedesTransitive(a: seq<Node>, b: seq<Node>, c: seq<Node>)
    requires |a| == |b| == |c| && Precedes(a, b) && Precedes(b, c)
    ensures Precedes(a, c)
  {
    if a != [] && a[0] == b[0] == c[0] { PrecedesTransitive(a[1..], b[1..], c[1..]); }
  }

  lemma {:induction false} PrecedesAppend(a: seq<Node>, b: seq<Node>, x: Node, y: Node)
    requires |a| == |b| && Precedes(a, b) && (a == b ==> x == y || Rank(x) < Rank(y))
    ensures Precedes(a + [x], b + [y])
  {
    if a == [] {
      assert (a + [x])[1..] == [] == (b + [y])[1..];
    } else {
      assert (a + [x])[1..] == a[1..] + [x] && (b + [y])[1..] == b[1..] + [y];
      if a[0] == b[0] {
        assert a[1..] == b[1..] ==> a == b by { assert a == [a[0]] + a[1..] && b == [b[0]] + b[1..]; }
        PrecedesAppend(a[1..], b[1..], x, y);
      }
    }
  }

  /** No walk to the same node with as many hops precedes this one. */
  ghost predicate Least(edges: set<Edge>, source: Node, r: seq<Node>) {
    forall p | Connects(edges, source, Last0(r), p) && |p| == |r| :: Precedes(r, p)
  }

  /** The shortest route that goes to the earlier release wherever shortest routes part. */
  ghost predicate Canonical(edges: set<Edge>, source: Node, target: Node, r: seq<Node>) {
    Shortest(edges, source, target, r) && forall p | Shortest(edges, source, target, p) :: |p| == |r| && Precedes(r, p)
  }

  lemma LeastIsCanonical(edges: set<Edge>, source: Node, target: Node, r: seq<Node>)
    requires Shortest(edges, source, target, r) && Least(edges, source, r)
    ensures Canonical(edges, source, target, r)
  {
    forall p | Shortest(edges, source, target, p) ensures |p| == |r| && Precedes(r, p) {
      assert Hops(p) >= Hops(r) && Hops(r) >= Hops(p);
    }
  }

  /** Queued walks are the preferred ones of their nodes, stand in order of preference, and stem from preferred walks. */
  ghost predicate Preferred(edges: set<Edge>, source: Node, queue: seq<seq<Node>>) {
    && (forall r | r in queue :: r != [] && Least(edges, source, r))
    && Ranked(queue) && Stems(queue)
  }

  ghost predicate Ranked(queue: seq<seq<Node>>) {
    forall i, j | 0 <= i < j < |queue| && |queue[i]| == |queue[j]| :: Precedes(queue[i], queue[j])
  }

  ghost predicate Stems(queue: seq<seq<Node>>) {
    forall x, y | x in queue && y in queue && |x| == |y| + 1 :: Precedes(x[..|x| - 1], y)
  }

  lemma FrontPrecedes(all: seq<seq<Node>>, q: seq<Node>)
    requires all != [] && Ranked(all) && q in all && |q| == |all[0]|
    ensures Precedes(all[0], q)
  {
    PrecedesSelf(q);
    var i :| 0 <= i < |all| && all[i] == q;
  }

  lemma QueuedWalk(queue: seq<seq<Node>>, depth: map<Node, nat>, finished: set<Node>, v: Node) returns (q: seq<Node>)
    requires Covers(queue, depth, finished) && v in depth && v !in finished && forall r | r in queue :: Queued(r, depth, finished)
    ensures q in queue && Last0(q) == v && Hops(q) == depth[v]
  {
    q :| q in queue && q != [] && Last(q) == v;
    assert Queued(q, depth, finished);
  }

  /** Another walk to an unseen node, one hop longer than the front, passes last through a node queued at the front's depth. */
  lemma RivalIsQueued(edges: set<Edge>, source: Node, target: Node, queue: seq<seq<Node>>,
                      depth: map<Node, nat>, finished: set<Node>, v: Node, p: seq<Node>) returns (q: seq<Node>)
    requires Searching(edges, source, target, queue, depth, finished) && queue != []
    requires v !in depth && IsWalk(edges, p) && p[0] == source && (Last0(p), v) in edges && |p| == |queue[0]|
    ensures q in queue && Last0(q) == Last0(p) && |q| == |p|
  {
    var j := WalkMeetsFrontier(edges, depth, finished, source, p);
    FrontIsShallowest(edges, source, target, queue, depth, finished);
    q := QueuedWalk(queue, depth, finished, Last0(p));
  }

  lemma FrontBeatsRival(edges: set<Edge>, source: Node, target: Node, queue: seq<seq<Node>>,
                        depth: map<Node, nat>, finished: set<Node>, v: Node, p: seq<Node>)
    requires Searching(edges, source, target, queue, depth, finished) && Preferred(edges, source, queue) && queue != []
    requires v !in depth && IsWalk(edges, p) && p[0] == source && (Last0(p), v) in edges && |p| == |queue[0]|
    ensures Precedes(queue[0], p)
  {
    var q := RivalIsQueued(edges, source, target, queue, depth, finished, v, p);
    assert Connects(edges, source, Last0(q), p) && Least(edges, source, q);
    FrontPrecedes(queue, q);
    PrecedesTransitive(queue[0], q, p);
  }

  lemma WalkFront(edges: set<Edge>, source: Node, v: Node, r: seq<Node>)
    requires Connects(edges, source, v, r) && |r| > 1
    ensures var p := r[..|r| - 1];
            IsWalk(edges, p) && p[0] == source && (Last0(p), v) in edges && p + [v] == r
  {
    var p := r[..|r| - 1];
    assert forall k | 0 <= k < |p| - 1 :: (p[k], p[k + 1]) == (r[k], r[k + 1]);
    assert (Last0(p), v) == (r[|r| - 2], r[|r| - 1]);
  }

  /** Extending the walk in front to an unseen node beats every other walk of that length. */
  lemma ExtensionIsLeast(edges: set<Edge>, source: Node, target: Node, queue: seq<seq<Node>>,
                         depth: map<Node, nat>, finished: set<Node>, v: Node, r: seq<Node>)
    requires Searching(edges, source, target, queue, depth, finished) && Preferred(edges, source, queue) && queue != []
    requires v !in depth && Connects(edges, source, v, r) && |r| == |queue[0]| + 1
    ensures Precedes(queue[0] + [v], r)
  {
    assert queue[0] in queue;
    WalkFront(edges, source, v, r);
    FrontBeatsRival(edges, source, target, queue, depth, finished, v, r[..|r| - 1]);
    PrecedesAppend(queue[0], r[..|r| - 1], v, v);
  }

  lemma RankedGrows(all: seq<seq<Node>>, v: Node)
    requires all != [] && Ranked(all) && Stems(all) && forall x | x in all :: x != []
    requires forall x | x in all && |x| == |all[0]| + 1 && x[..|all[0]|] == all[0] :: Rank(Last0(x)) < Rank(v)
    ensures Ranked(all + [all[0] + [v]])
  {
    var w := all[0] + [v];
    forall i | 0 <= i < |all| && |all[i]| == |w| ensures Precedes(all[i], w) {
      var x := all[i];
      assert x in all && all[0] in all && Precedes(x[..|x| - 1], all[0]);
      PrecedesAppend(x[..|x| - 1], all[0], Last(x), v);
      assert x[..|x| - 1] + [Last(x)] == x;
    }
  }

  lemma StemsGrow(all: seq<seq<Node>>, v: Node)
    requires all != [] && Ranked(all) && Stems(all) && Ordered(all)
    ensures Stems(all + [all[0] + [v]])
  {
    var w := all[0] + [v];
    assert w[..|w| - 1] == all[0];
    forall x, y | x in all + [w] && y in all + [w] && |x| == |y| + 1 ensures Precedes(x[..|x| - 1], y) {
      assert x in all ==> |x| <= |w| by { if x in all { var i :| 0 <= i < |all| && all[i] == x; } }
      if x !in all { FrontPrecedes(all, y); }
    }
  }

  /** A walk queued behind the others keeps the order of preference. */
  lemma PreferredGrows(edges: set<Edge>, source: Node, target: Node, all: seq<seq<Node>>, depth: map<Node, nat>, finished: set<Node>, v: Node)
    requires Searching(edges, source, target, all, depth, finished) && Preferred(edges, source, all) && all != [] && v !in depth
    requires forall x | x in all && |x| == |all[0]| + 1 && x[..|all[0]|] == all[0] :: Rank(Last0(x)) < Rank(v)
    ensures Preferred(edges, source, all + [all[0] + [v]])
  {
    var w := all[0] + [v];
    forall p | Connects(edges, source, Last0(w), p) && |p| == |w| ensures Precedes(w, p) {
      ExtensionIsLeast(edges, source, target, all, depth, finished, v, p);
    }
    RankedGrows(all, v);
    StemsGrow(all, v);
  }

  lemma PreferredRest(edges: set<Edge>, source: Node, current: seq<Node>, queue: seq<seq<Node>>)
    requires Preferred(edges, source, [current] + queue)
    ensures Preferred(edges, source, queue)
  {
    var all := [current] + queue;
    assert forall i | 0 <= i < |queue| :: queue[i] == all[i + 1];
    forall r | r in queue ensures r in all {}
  }

  /** Every queued walk stems from a finished node, or from `current` by one of the successors in `seen`. */
  ghost predicate Grown(current: seq<Node>, queue: seq<seq<Node>>, finished: set<Node>, seen: seq<Node>) {
    forall x | x in queue && |x| > 1 :: Last0(x[..|x| - 1]) in finished || (x[..|x| - 1] == current && Last0(x) in seen)
  }

  lemma EarlierSuccessors(edges: set<Edge>, source: Node, target: Node, current: seq<Node>, queue: seq<seq<Node>>,
                          depth: map<Node, nat>, finished: set<Node>, adjacent: seq<Node>, i: nat, x: seq<Node>)
    requires Sequenced(edges) && Searching(edges, source, target, [current] + queue, depth, finished) && i < |adjacent|
    requires Grown(current, queue, finished, adjacent[..i]) && SortedBy(adjacent, EarlierRelease) && adjacent[i] !in depth
    requires forall v | v in adjacent :: (Last0(current), v) in edges
    requires x in [current] + queue && |x| == |current| + 1 && x[..|current|] == current
    ensures Rank(Last0(x)) < Rank(adjacent[i])
  {
    assert current in [current] + queue && Queued(current, depth, finished) && Queued(x, depth, finished);
    assert x in queue && x[..|x| - 1] == current;
    var k :| 0 <= k < i && adjacent[..i][k] == Last0(x);
    assert adjacent[k] in adjacent && adjacent[i] in adjacent && EarlierRelease(adjacent[k], adjacent[i]);
    var e, f := (Last0(current), adjacent[k]), (Last0(current), adjacent[i]);
    assert e in edges && f in edges && e.1 != f.1;
  }

  lemma GrownGrows(current: seq<Node>, queue: seq<seq<Node>>, finished: set<Node>, seen: seq<Node>, v: Node)
    requires Grown(current, queue, finished, seen)
    ensures Grown(current, queue, finished, seen + [v]) && Grown(current, queue + [current + [v]], finished, seen + [v])
  {
    assert (current + [v])[..|current|] == current;
  }

  /** An unseen successor keeps the order of preference, and the walk to it is the preferred one. */
  lemma TieStep(edges: set<Edge>, source: Node, target: Node, current: seq<Node>, queue: seq<seq<Node>>,
                depth: map<Node, nat>, finished: set<Node>, adjacent: seq<Node>, i: nat)
    requires Sequenced(edges) && Searching(edges, source, target, [current] + queue, depth, finished) && i < |adjacent|
    requires Grown(current, queue, finished, adjacent[..i]) && SortedBy(adjacent, EarlierRelease)
    requires forall v | v in adjacent :: (Last0(current), v) in edges
    requires Preferred(edges, source, [current] + queue) && adjacent[i] !in depth
    ensures Preferred(edges, source, [current] + (queue + [current + [adjacent[i]]]))
    ensures Least(edges, source, current + [adjacent[i]])
  {
    var all, w := [current] + queue, current + [adjacent[i]];
    forall x | x in all && |x| == |current| + 1 && x[..|current|] == current ensures Rank(Last0(x)) < Rank(adjacent[i]) {
      EarlierSuccessors(edges, source, target, current, queue, depth, finished, adjacent, i, x);
    }
    PreferredGrows(edges, source, target, all, depth, finished, adjacent[i]);
    QueueGrows(current, queue, w);
  }

  lemma TiesSettled(edges: set<Edge>, source: Node, current: seq<Node>, queue: seq<seq<Node>>, finished: set<Node>, seen: seq<Node>)
    requires Preferred(edges, source, [current] + queue) && Grown(current, queue, finished, seen)
    ensures Preferred(edges, source, queue) && Rooted(queue, finished + {Last0(current)})
  {
    PreferredRest(edges, source, current, queue);
  }

  /** Every queued walk stems from a finished node. */
  ghost predicate Rooted(queue: seq<seq<Node>>, finished: set<Node>) {
    forall x | x in queue && |x| > 1 :: Last0(x[..|x| - 1]) in finished
  }

  /** Ties are settled in favour of earlier releases. */
  ghost predicate Tied(edges: set<Edge>, source: Node, queue: seq<seq<Node>>, finished: set<Node>) {
    Sequenced(edges) ==> Preferred(edges, source, queue) && Rooted(queue, finished)
  }

  // ---- One walk extended ----------------------------------------------------------------------------------

  /** Queue and depths once a walk was extended to some successors. */
  ghost function Grow(current: seq<Node>, queue: seq<seq<Node>>, depth: map<Node, nat>, adjacent: seq<Node>): (seq<seq<Node>>, map<Node, nat>)
    requires current != []
  {
    if adjacent == [] then (queue, depth) else
    var (q, d) := Grow(current, queue, depth, adjacent[..|adjacent| - 1]);
    var v := adjacent[|adjacent| - 1];
    if v in d then (q, d) else (q + [current + [v]], d[v := Hops(current) + 1])
  }

  /** What a walk is extended with: the sorted successors of its last node, up to but not including the target. */
  ghost predicate Successors(edges: set<Edge>, current: seq<Node>, target: Node, adjacent: seq<Node>) {
    && SortedBy(adjacent, EarlierRelease) && target !in adjacent
    && forall v | v in adjacent :: (Last0(current), v) in edges
  }

  lemma {:induction false} GrowKeepsSearch(edges: set<Edge>, source: Node, target: Node, current: seq<Node>, queue: seq<seq<Node>>,
                                           depth: map<Node, nat>, finished: set<Node>, adjacent: seq<Node>)
    requires current != [] && Searching(edges, source, target, [current] + queue, depth, finished) && Successors(edges, current, target, adjacent)
    ensures var (q, d) := Grow(current, queue, depth, adjacent);
            Extending(edges, source, target, current, q, d, finished, adjacent)
    decreases |adjacent|
  {
    if adjacent != [] {
      var n := |adjacent| - 1;
      assert Successors(edges, current, target, adjacent[..n]) && adjacent[n] in adjacent && adjacent[..n + 1] == adjacent;
      GrowKeepsSearch(edges, source, target, current, queue, depth, finished, adjacent[..n]);
      var (q, d) := Grow(current, queue, depth, adjacent[..n]);
      ExtendStep(edges, source, target, current, q, d, finished, adjacent, n);
    }
  }

  lemma FewerSuccessors(edges: set<Edge>, current: seq<Node>, target: Node, adjacent: seq<Node>)
    requires Successors(edges, current, target, adjacent) && adjacent != []
    ensures Successors(edges, current, target, adjacent[..|adjacent| - 1])
  {}

  lemma TiesGrow(edges: set<Edge>, source: Node, target: Node, current: seq<Node>, q: seq<seq<Node>>, d: map<Node, nat>,
                 finished: set<Node>, adjacent: seq<Node>)
    requires adjacent != [] && Successors(edges, current, target, adjacent) && Sequenced(edges)
    requires Searching(edges, source, target, [current] + q, d, finished) && Preferred(edges, source, [current] + q)
    requires Grown(current, q, finished, adjacent[..|adjacent| - 1])
    ensures var v := adjacent[|adjacent| - 1];
            var q' := if v in d then q else q + [current + [v]];
            Preferred(edges, source, [current] + q') && Grown(current, q', finished, adjacent)
  {
    var n := |adjacent| - 1;
    assert adjacent == adjacent[..n] + [adjacent[n]];
    GrownGrows(current, q, finished, adjacent[..n], adjacent[n]);
    if adjacent[n] !in d { TieStep(edges, source, target, current, q, d, finished, adjacent, n); }
  }

  /** Extending keeps the order of preference, and an unseen successor that comes next gets its preferred walk. */
  lemma {:induction false} GrowKeepsTies(edges: set<Edge>, source: Node, target: Node, current: seq<Node>, queue: seq<seq<Node>>,
                                         depth: map<Node, nat>, finished: set<Node>, adjacent: seq<Node>)
    requires current != [] && Searching(edges, source, target, [current] + queue, depth, finished) && Successors(edges, current, target, adjacent)
    requires Sequenced(edges) && Preferred(edges, source, [current] + queue) && Grown(current, queue, finished, [])
    ensures var (q, d) := Grow(current, queue, depth, adjacent);
            Preferred(edges, source, [current] + q) && Grown(current, q, finished, adjacent)
    decreases |adjacent|
  {
    if adjacent != [] {
      var n := |adjacent| - 1;
      FewerSuccessors(edges, current, target, adjacent);
      GrowKeepsSearch(edges, source, target, current, queue, depth, finished, adjacent[..n]);
      GrowKeepsTies(edges, source, target, current, queue, depth, finished, adjacent[..n]);
      var (q, d) := Grow(current, queue, depth, adjacent[..n]);
      TiesGrow(edges, source, target, current, q, d, finished, adjacent);
    }
  }

  /** The walk in front that reaches the target behind these successors is the preferred route. */
  lemma FoundIsLeast(edges: set<Edge>, source: Node, target: Node, current: seq<Node>, queue: seq<seq<Node>>,
                     depth: map<Node, nat>, finished: set<Node>)
    requires Searching(edges, source, target, [current] + queue, depth, finished) && Tied(edges, source, [current] + queue, finished)
    ensures Sequenced(edges) ==> Least(edges, source, current + [target])
  {
    if Sequenced(edges) {
      var all := [current] + queue;
      assert all[0] == current;
      forall p | Connects(edges, source, target, p) && |p| == |current| + 1 ensures Precedes(current + [target], p) {
        ExtensionIsLeast(edges, source, target, all, depth, finished, target, p);
      }
    }
  }

  lemma GrowSettlesTies(edges: set<Edge>, source: Node, target: Node, current: seq<Node>, queue: seq<seq<Node>>,
                        depth: map<Node, nat>, finished: set<Node>, adjacent: seq<Node>)
    requires current != [] && Searching(edges, source, target, [current] + queue, depth, finished) && Successors(edges, current, target, adjacent)
    requires Tied(edges, source, [current] + queue, finished)
    ensures Tied(edges, source, Grow(current, queue, depth, adjacent).0, finished + {Last0(current)})
  {
    if Sequenced(edges) {
      assert forall x | x in queue :: x in [current] + queue;
      GrowKeepsTies(edges, source, target, current, queue, depth, finished, adjacent);
      TiesSettled(edges, source, current, Grow(current, queue, depth, adjacent).0, finished, adjacent);
    }
  }

  datatype Outcome = Found(route: seq<Node>) | TooLong | Extended

  /** Extends one walk along each of its edges. */
  method Extend(edges: set<Edge>, source: Node, target: Node, current: seq<Node>, rest: seq<seq<Node>>, seen: set<Node>,
                ghost depths: map<Node, nat>, ghost finished: set<Node>)
    returns (outcome: Outcome, queue: seq<seq<Node>>, visited: set<Node>, ghost depth: map<Node, nat>, ghost adjacent: seq<Node>)
    requires Searching(edges, source, target, [current] + rest, depths, finished) && seen == depths.Keys && current != []
    ensures outcome.Found? ==> Connects(edges, source, target, outcome.route) && outcome.route == current + [target] && Hops(current) < MAX_HOPS
    ensures outcome.TooLong? ==> Hops(current) >= MAX_HOPS
    ensures outcome.Extended? ==> Searching(edges, source, target, queue, depth, finished + {Last0(current)}) && visited == depth.Keys
    ensures outcome.Extended? ==> Successors(edges, current, target, adjacent) && (queue, depth) == Grow(current, rest, depths, adjacent)
  {
    queue, visited, depth := rest, seen, depths;
    assert current in [current] + rest;
    var successors := Adjacent(edges, Last0(current));
    adjacent := successors;
    for i := 0 to |successors|
      invariant Extending(edges, source, target, current, queue, depth, finished, successors[..i]) && visited == depth.Keys
      invariant (queue, depth) == Grow(current, rest, depths, successors[..i]) && target !in successors[..i]
    {
      var v := successors[i];
      if Hops(current) >= MAX_HOPS {
        outcome := TooLong;
        return;
      }
      ExtendStep(edges, source, target, current, queue, depth, finished, successors, i);
      if v == target {
        outcome := Found(current + [v]);
        return;
      }
      assert successors[..i + 1][..i] == successors[..i];
      if v !in visited {
        queue, visited, depth := queue + [current + [v]], visited + {v}, depth[v := Hops(current) + 1];
      }
    }
    assert successors[..|successors|] == successors;
    FinishKeepsSearch(edges, source, target, current, queue, depth, finished, successors);
    outcome := Extended;
  }

  /** One round of the search. */
  method Advance(edges: set<Edge>, source: Node, target: Node, queue: seq<seq<Node>>, visited: set<Node>,
                 ghost depth: map<Node, nat>, ghost finished: set<Node>)
    returns (outcome: Outcome, queue': seq<seq<Node>>, visited': set<Node>, ghost depth': map<Node, nat>, ghost finished': set<Node>)
    requires Searching(edges, source, target, queue, depth, finished) && visited == depth.Keys && queue != []
    requires Tied(edges, source, queue, finished)
    ensures outcome.Found? ==> Shortest(edges, source, target, outcome.route) && Hops(outcome.route) <= MAX_HOPS
    ensures outcome.Found? && Sequenced(edges) ==> Canonical(edges, source, target, outcome.route)
    ensures outcome.Extended? ==> Tied(edges, source, queue', finished')
    ensures outcome.TooLong? ==> AtLeast(edges, source, target, MAX_HOPS + 1)
    ensures outcome.Extended? ==> Searching(edges, source, target, queue', depth', finished') && visited' == depth'.Keys
    ensures outcome.Extended? ==> |Nodes(edges, source) - finished'| < |Nodes(edges, source) - finished|
  {
    var current := queue[0];
    assert queue == [current] + queue[1..] && current in queue;
    RoutesAreLonger(edges, source, target, queue, depth, finished);
    Shrinks(edges, source, target, queue, depth, finished);
    FoundIsLeast(edges, source, target, current, queue[1..], depth, finished);
    ghost var adjacent;
    outcome, queue', visited', depth', adjacent := Extend(edges, source, target, current, queue[1..], visited, depth, finished);
    if outcome.Found? {
      if Sequenced(edges) { LeastIsCanonical(edges, source, target, outcome.route); }
    } else if outcome.Extended? {
      GrowSettlesTies(edges, source, target, current, queue[1..], depth, finished, adjacent);
    }
    finished' := finished + {Last0(current)};
  }

  /** A route with the fewest hops, or the certainty that none has at most MAX_HOPS. */
  method ShortestRoute(edges: set<Edge>, source: Node, target: Node) returns (route: Option<seq<Node>>)
    ensures route.Some? ==> Shortest(edges, source, target, route.value) && Hops(route.value) <= MAX_HOPS
    ensures route.Some? && Sequenced(edges) ==> Canonical(edges, source, target, route.value)
    ensures route.None? ==> AtLeast(edges, source, target, MAX_HOPS + 1)
  {
    if source == target { return Some([source]); }
    var queue, visited := [[source]], {source};
    ghost var depth, finished: set<Node> := map[source := 0], {};
    SearchStarts(edges, source, target);
    while queue != []
      invariant Searching(edges, source, target, queue, depth, finished) && visited == depth.Keys
      invariant Tied(edges, source, queue, finished)
      decreases |Nodes(edges, source) - finished|
    {
      var outcome;
      outcome, queue, visited, depth, finished := Advance(edges, source, target, queue, visited, depth, finished);
      if outcome.Found? { return Some(outcome.route); }
      if outcome.TooLong? { return None; }
    }
    RoutesAreLonger(edges, source, target, queue, depth, finished);
    return None;
  }
}
