/**
 Lazy route discovery: releases are fetched one at a time, from the target
 backwards along authenticated references, until the route found in the loaded
 part of the graph cannot be beaten by anything still unknown.
 */
module RouteDiscovery {
  import opened Common
  import opened Routes

  const MAX_RELEASES := 256

  /** The whole release graph: edges releases declare, and recovery bridges, which every bundle lists completely. */
  datatype Graph = Graph(ordinary: set<Edge>, bridges: set<Edge>)

  datatype Failure = NoRoute | TooManyReleases | FetchFailed

  function All(g: Graph): set<Edge> {
    g.ordinary + g.bridges
  }

  /** Edges lead to releases and strictly increase the sequence. */
  ghost predicate Increasing(g: Graph) {
    forall e | e in All(g) :: e.1.Release? && (e.0.Release? ==> e.0.sequence < e.1.sequence)
  }

  // ---- What a loaded part of the graph shows ---------------------------------------------------

  predicate Usable(loaded: set<Node>, source: Node, bridge: bool, e: Edge) {
    e.1 in loaded && (e.0 in loaded || (e.0 == source && (bridge || e.0.Genesis?)))
  }

  function UsableEdges(g: Graph, loaded: set<Node>, source: Node): set<Edge> {
    (set e | e in g.ordinary && Usable(loaded, source, false, e)) + (set e | e in g.bridges && Usable(loaded, source, true, e))
  }

  /** The targets of all bridges that matter are loaded; otherwise planning refuses. */
  predicate BridgesReady(g: Graph, loaded: set<Node>, source: Node, target: Node)
    requires target.Release?
  {
    forall e | e in g.bridges && (e.0 == source || e.0 in loaded) && e.1.Release? && e.1.sequence <= target.sequence :: e.1 in loaded
  }

  /** The installed source is among the sources the loaded releases and the bridges name. */
  predicate Known(g: Graph, loaded: set<Node>, source: Node) {
    || source in loaded
    || (exists e | e in g.bridges :: e.0 == source)
    || (source.Genesis? && exists e | e in g.ordinary :: e.0 == source && e.1 in loaded)
  }

  method Plan(g: Graph, loaded: set<Node>, source: Node, target: Node) returns (route: Option<seq<Node>>)
    requires target.Release?
    ensures route.Some? ==> Shortest(UsableEdges(g, loaded, source), source, target, route.value) && Hops(route.value) <= MAX_HOPS
    ensures route.Some? && Sequenced(All(g)) ==> Canonical(UsableEdges(g, loaded, source), source, target, route.value)
    ensures route.None? && BridgesReady(g, loaded, source, target) ==> AtLeast(UsableEdges(g, loaded, source), source, target, MAX_HOPS + 1)
  {
    if !BridgesReady(g, loaded, source, target) { return None; }
    assert UsableEdges(g, loaded, source) <= All(g);
    route := ShortestRoute(UsableEdges(g, loaded, source), source, target);
  }

  function References(g: Graph, loaded: set<Node>): set<Node> {
    (set e | e in g.ordinary && e.1 in loaded && e.0.Release? :: e.0) +
    (set e | e in g.bridges && e.0.Release? :: e.0) + (set e | e in g.bridges && e.1.Release? :: e.1)
  }

  predicate Pruned(v: Node, source: Node, target: Node)
    requires v.Release? && target.Release?
  {
    v.sequence > target.sequence || (source.Release? && v.sequence < source.sequence)
  }

  function Unknown(g: Graph, loaded: set<Node>, source: Node, target: Node): (refs: set<Node>)
    requires target.Release?
    ensures forall v | v in refs :: v.Release? && v !in loaded
  {
    set v | v in References(g, loaded) && v.Release? && v !in loaded && !Pruned(v, source, target)
  }

  // ---- Walking back from the target ----------------------------------------------------------------

  /** The unpruned edges turned round: discovery is a search from the target along these. */
  function Backwards(g: Graph, source: Node, target: Node): set<Edge>
    requires target.Release?
  {
    set e | e in All(g) && e.0.Release? && !Pruned(e.0, source, target) :: (e.1, e.0)
  }

  function Reversed(r: seq<Node>): seq<Node> {
    seq(|r|, i requires 0 <= i < |r| => r[|r| - 1 - i])
  }

  /** Sequences only grow along a route, so none of its releases is pruned. */
  lemma {:induction false} RouteStaysInRange(g: Graph, r: seq<Node>, i: nat, j: nat)
    requires Increasing(g) && IsWalk(All(g), r) && i <= j < |r| && r[i].Release?
    ensures r[j].Release? && r[i].sequence <= r[j].sequence
    decreases j
  {
    if i < j {
      RouteStaysInRange(g, r, i, j - 1);
      assert (r[j - 1], r[j]) in All(g);
    }
  }

  /** A route's releases, read from its end, walk back from the target. */
  lemma BackwardsWalk(g: Graph, source: Node, target: Node, r: seq<Node>)
    requires Increasing(g) && target.Release? && IsWalk(All(g), r) && r[|r| - 1] == target
    requires r[0].Release? && (source.Release? ==> r[0].sequence >= source.sequence)
    ensures IsWalk(Backwards(g, source, target), Reversed(r)) && Reversed(r)[0] == target
  {
    var s := Reversed(r);
    forall k | 0 <= k < |s| - 1 ensures (s[k], s[k + 1]) in Backwards(g, source, target) {
      var i := |r| - 2 - k;
      assert (r[i], r[i + 1]) in All(g) && s[k] == r[i + 1] && s[k + 1] == r[i];
      RouteStaysInRange(g, r, 0, i);
      RouteStaysInRange(g, r, i, |r| - 1);
    }
  }

  /** The releases of a route from the source: all of it, or all but the state it starts from. */
  function Releases(r: seq<Node>): seq<Node> {
    if r != [] && r[0].Genesis? then r[1..] else r
  }

  lemma ReleasesWalkBack(g: Graph, source: Node, target: Node, r: seq<Node>)
    requires Increasing(g) && target.Release? && Connects(All(g), source, target, r)
    ensures Releases(r) != [] && IsWalk(Backwards(g, source, target), Reversed(Releases(r))) && Reversed(Releases(r))[0] == target
  {
    var s := Releases(r);
    if r[0].Genesis? {
      assert (r[0], r[1]) in All(g);
      assert forall k | 0 <= k < |s| - 1 :: (s[k], s[k + 1]) == (r[k + 1], r[k + 2]);
    }
    BackwardsWalk(g, source, target, s);
  }

  /** A route all of whose releases are loaded is a route of the loaded part. */
  lemma LoadedRouteIsUsable(g: Graph, loaded: set<Node>, source: Node, target: Node, r: seq<Node>)
    requires Connects(All(g), source, target, r) && forall v | v in Releases(r) :: v in loaded
    ensures Connects(UsableEdges(g, loaded, source), source, target, r)
  {
    forall k | 0 <= k < |r| - 1 ensures (r[k], r[k + 1]) in UsableEdges(g, loaded, source) {
      assert (r[k], r[k + 1]) in All(g);
      assert r[k + 1] in Releases(r);
      assert k > 0 || r[0].Release? ==> r[k] in Releases(r);
    }
  }

  // ---- What the recorded depths mean ------------------------------------------------------------------

  /** Releases that bridges name are known from the start, at most one deep. */
  ghost predicate Bridged(g: Graph, source: Node, target: Node, depths: map<Node, nat>)
    requires target.Release?
  {
    forall b, v | b in g.bridges && (v == b.0 || v == b.1) && v.Release? && !Pruned(v, source, target) :: v in depths && depths[v] <= 1
  }

  /** Loaded releases are at most `e` deep, known but unloaded ones `e` or one more, and references of loaded ones are known. */
  ghost predicate Frontier(g: Graph, source: Node, target: Node, loaded: set<Node>, depths: map<Node, nat>, e: nat)
    requires target.Release?
  {
    && target in loaded && target in depths && depths[target] == 0
    && Closed(Backwards(g, source, target), depths, loaded)
    && (forall v | v in loaded :: depths[v] <= e)
    && (forall v | v in depths && v !in loaded :: e <= depths[v] <= e + 1 && v in Unknown(g, loaded, source, target))
    && (forall v | v in loaded :: v.Release? && (v == target || !Pruned(v, source, target)))
    && Bridged(g, source, target, depths)
  }

  /** No recorded depth exceeds the true distance to the target. */
  lemma DepthsNeverOverstate(g: Graph, source: Node, target: Node, loaded: set<Node>, depths: map<Node, nat>, e: nat, v: Node, r: seq<Node>)
    requires Increasing(g) && target.Release? && Frontier(g, source, target, loaded, depths, e)
    requires v in depths && Connects(All(g), v, target, r)
    ensures depths[v] <= Hops(r)
  {
    if v != target {
      BackwardsWalk(g, source, target, r);
      var s := Reversed(r);
      var j := WalkMeetsFrontier(Backwards(g, source, target), depths, loaded, target, s);
      assert s[|s| - 1] == v;
    }
  }

  lemma ReversedHoldsAll(r: seq<Node>, loaded: set<Node>)
    requires forall k | 0 <= k < |r| :: Reversed(r)[k] in loaded
    ensures forall v | v in r :: v in loaded
  {
    forall v | v in r ensures v in loaded {
      var i :| 0 <= i < |r| && r[i] == v;
      assert Reversed(r)[|r| - 1 - i] == v;
    }
  }

  /** A route's releases are all loaded, or the last one that is not is known no deeper than it is far from the target. */
  lemma RouteMeets(g: Graph, source: Node, target: Node, loaded: set<Node>, depths: map<Node, nat>, e: nat, r: seq<Node>) returns (i: int)
    requires Increasing(g) && target.Release? && Frontier(g, source, target, loaded, depths, e)
    requires Connects(All(g), source, target, r)
    ensures -1 <= i < |Releases(r)|
    ensures i == -1 ==> forall v | v in Releases(r) :: v in loaded
    ensures i >= 0 ==> var v := Releases(r)[i]; v in depths && v !in loaded && depths[v] <= |Releases(r)| - 1 - i
  {
    ReleasesWalkBack(g, source, target, r);
    var rel := Releases(r);
    var j := WalkMeetsFrontier(Backwards(g, source, target), depths, loaded, target, Reversed(rel));
    i := |rel| - 1 - j;
    if i == -1 { ReversedHoldsAll(rel, loaded); } else { assert Reversed(rel)[j] == rel[i]; }
  }

  /** Where a route meets what is not loaded: nowhere, or at a known release no deeper than the route is long. */
  lemma RouteMeetsUnknown(g: Graph, source: Node, target: Node, loaded: set<Node>, depths: map<Node, nat>, e: nat, r: seq<Node>)
    requires Increasing(g) && target.Release? && Frontier(g, source, target, loaded, depths, e)
    requires Connects(All(g), source, target, r)
    ensures (forall v | v in Releases(r) :: v in loaded) || exists v | v in depths && v !in loaded :: depths[v] <= Hops(r)
  {
    var i := RouteMeets(g, source, target, loaded, depths, e, r);
  }

  /** When every unknown release is at least as deep as the plan is long, no route anywhere is shorter. */
  lemma NothingUnknownIsShorter(g: Graph, source: Node, target: Node, loaded: set<Node>, depths: map<Node, nat>, e: nat, plan: seq<Node>)
    requires Increasing(g) && target.Release? && Frontier(g, source, target, loaded, depths, e)
    requires Shortest(UsableEdges(g, loaded, source), source, target, plan)
    requires forall v | v in depths && v !in loaded :: depths[v] >= Hops(plan)
    ensures Shortest(All(g), source, target, plan)
  {
    assert forall k | 0 <= k < |plan| - 1 :: (plan[k], plan[k + 1]) in UsableEdges(g, loaded, source);
    forall r | Connects(All(g), source, target, r) ensures Hops(r) >= Hops(plan) {
      RouteMeetsUnknown(g, source, target, loaded, depths, e, r);
      if forall v | v in Releases(r) :: v in loaded {
        LoadedRouteIsUsable(g, loaded, source, target, r);
      }
    }
  }

  /** Where a route no longer than any unknown release is deep can leave what is loaded: only at its source. */
  lemma RouteIsLoaded(g: Graph, source: Node, target: Node, loaded: set<Node>, depths: map<Node, nat>, e: nat, r: seq<Node>)
    requires Increasing(g) && target.Release? && Frontier(g, source, target, loaded, depths, e)
    requires Connects(All(g), source, target, r) && forall v | v in depths && v !in loaded :: depths[v] >= Hops(r)
    ensures (forall v | v in Releases(r) :: v in loaded) || (source.Release? && source !in loaded && source in depths)
  {
    var i := RouteMeets(g, source, target, loaded, depths, e, r);
    if i >= 0 { assert i == 0 && Releases(r)[0] == source; }
  }

  /** A plan from a source that is not loaded starts over a bridge, so a release this near would have been looked at: it is a single hop. */
  lemma UnloadedSourceIsNear(g: Graph, source: Node, target: Node, loaded: set<Node>, depths: map<Node, nat>, e: nat, plan: seq<Node>)
    requires Increasing(g) && target.Release? && Frontier(g, source, target, loaded, depths, e)
    requires Connects(UsableEdges(g, loaded, source), source, target, plan) && source.Release? && source !in loaded
    requires source in depths && forall v | v in depths && v !in loaded :: depths[v] >= Hops(plan)
    ensures Hops(plan) == 1
  {
    assert plan[0] != plan[|plan| - 1];
    var first := (plan[0], plan[1]);
    assert first in UsableEdges(g, loaded, source) && first in g.bridges;
    assert source in Unknown(g, loaded, source, target);
  }

  /** An equally short route of the whole graph is a route of the loaded part, or the plan itself. */
  lemma RivalIsUsable(g: Graph, source: Node, target: Node, loaded: set<Node>, depths: map<Node, nat>, e: nat, plan: seq<Node>, p: seq<Node>)
    requires Increasing(g) && target.Release? && Frontier(g, source, target, loaded, depths, e)
    requires Connects(UsableEdges(g, loaded, source), source, target, plan) && Connects(All(g), source, target, p) && |p| == |plan|
    requires forall v | v in depths && v !in loaded :: depths[v] >= Hops(plan)
    ensures p == plan || Connects(UsableEdges(g, loaded, source), source, target, p)
  {
    RouteIsLoaded(g, source, target, loaded, depths, e, p);
    if forall v | v in Releases(p) :: v in loaded {
      LoadedRouteIsUsable(g, loaded, source, target, p);
    } else {
      UnloadedSourceIsNear(g, source, target, loaded, depths, e, plan);
      assert plan == [source, target] && p == [source, target];
    }
  }

  /** When every unknown release is at least as deep as the plan is long, planning in the whole graph gives the very same route. */
  lemma DiscoveryIsExact(g: Graph, source: Node, target: Node, loaded: set<Node>, depths: map<Node, nat>, e: nat, plan: seq<Node>)
    requires Increasing(g) && target.Release? && Frontier(g, source, target, loaded, depths, e)
    requires Canonical(UsableEdges(g, loaded, source), source, target, plan)
    requires forall v | v in depths && v !in loaded :: depths[v] >= Hops(plan)
    ensures Canonical(All(g), source, target, plan)
  {
    NothingUnknownIsShorter(g, source, target, loaded, depths, e, plan);
    PrecedesSelf(plan);
    forall p | Shortest(All(g), source, target, p) ensures |p| == |plan| && Precedes(plan, p) {
      assert Hops(p) <= Hops(plan) <= Hops(p);
      RivalIsUsable(g, source, target, loaded, depths, e, plan, p);
      assert p == plan || Shortest(UsableEdges(g, loaded, source), source, target, p);
    }
  }

  lemma BridgesAreReady(g: Graph, source: Node, target: Node, loaded: set<Node>, depths: map<Node, nat>, e: nat)
    requires Increasing(g) && target.Release? && Frontier(g, source, target, loaded, depths, e)
    requires Unknown(g, loaded, source, target) == {}
    ensures BridgesReady(g, loaded, source, target)
  {
    forall b | b in g.bridges && (b.0 == source || b.0 in loaded) && b.1.Release? && b.1.sequence <= target.sequence ensures b.1 in loaded {
      assert b in All(g) && b.1 in References(g, loaded);
      assert b.1 !in Unknown(g, loaded, source, target);
    }
  }

  /** With nothing unknown left, a failed plan means there is no route of admissible length at all. */
  lemma NothingUnknownMeansNoRoute(g: Graph, source: Node, target: Node, loaded: set<Node>, depths: map<Node, nat>, e: nat)
    requires Increasing(g) && target.Release? && Frontier(g, source, target, loaded, depths, e)
    requires Unknown(g, loaded, source, target) == {}
    requires Known(g, loaded, source) ==> AtLeast(UsableEdges(g, loaded, source), source, target, MAX_HOPS + 1)
    ensures AtLeast(All(g), source, target, MAX_HOPS + 1)
  {
    forall r | Connects(All(g), source, target, r) ensures Hops(r) >= MAX_HOPS + 1 {
      RouteMeetsUnknown(g, source, target, loaded, depths, e, r);
      LoadedRouteIsUsable(g, loaded, source, target, r);
      SourceIsKnown(g, loaded, source, target, r);
    }
  }

  lemma SourceIsKnown(g: Graph, loaded: set<Node>, source: Node, target: Node, r: seq<Node>)
    requires Connects(All(g), source, target, r) && forall v | v in Releases(r) :: v in loaded
    requires target.Release?
    ensures Known(g, loaded, source)
  {
    if source.Release? {
      assert r[0] in Releases(r);
    } else {
      assert (r[0], r[1]) in All(g) && r[1] == Releases(r)[0];
      var first := (r[0], r[1]);
      if first in g.ordinary { assert first.0 == source && first.1 in loaded; }
    }
  }

  // ---- The loop ------------------------------------------------------------------------------------------

  /** References come one deeper than what was expanded last, unless they are known to be nearer. */
  method RecordDepths(refs: set<Node>, depths: map<Node, nat>, expanded: nat) returns (recorded: map<Node, nat>)
    ensures recorded.Keys == depths.Keys + refs
    ensures forall v | v in recorded ::
              recorded[v] == if v !in refs then depths[v] else if v in depths && depths[v] <= expanded + 1 then depths[v] else expanded + 1
  {
    recorded := depths;
    var left := refs;
    while left != {}
      invariant left <= refs && recorded.Keys == depths.Keys + (refs - left)
      invariant forall v | v in recorded ::
                  recorded[v] == if v !in refs - left then depths[v] else if v in depths && depths[v] <= expanded + 1 then depths[v] else expanded + 1
      decreases left
    {
      var v :| v in left;
      if v !in recorded || expanded + 1 < recorded[v] {
        recorded := recorded[v := expanded + 1];
      }
      left := left - {v};
    }
  }

  /** Nearer first, then the installed release itself, then later releases, then by manifest. */
  predicate Earlier(a: Node, b: Node, depths: map<Node, nat>, source: Node)
    requires a.Release? && b.Release? && a in depths && b in depths
  {
    if depths[a] != depths[b] then depths[a] < depths[b]
    else if (a == source) != (b == source) then a == source
    else if a.sequence != b.sequence then a.sequence > b.sequence
    else a.manifest < b.manifest
  }

  method First(refs: set<Node>, depths: map<Node, nat>, source: Node) returns (first: Node)
    requires refs != {} && forall v | v in refs :: v.Release? && v in depths
    ensures first in refs && forall v | v in refs :: depths[first] <= depths[v] && !Earlier(v, first, depths, source)
  {
    first :| first in refs;
    var left := refs - {first};
    while left != {}
      invariant left <= refs && first in refs
      invariant forall v | v in refs - left :: depths[first] <= depths[v] && !Earlier(v, first, depths, source)
      decreases left
    {
      var v :| v in left;
      if Earlier(v, first, depths, source) {
        first := v;
      }
      left := left - {v};
    }
  }

  /** A release was just loaded; its own references are not recorded yet. */
  ghost predicate Expanded(g: Graph, source: Node, target: Node, loaded: set<Node>, depths: map<Node, nat>, e: nat, last: Node)
    requires target.Release?
  {
    && target in loaded && target in depths && depths[target] == 0
    && last in loaded && loaded <= depths.Keys && depths[last] == e
    && Closed(Backwards(g, source, target), depths, loaded - {last})
    && (forall v | v in loaded :: depths[v] <= e)
    && (forall v | v in depths && v !in loaded :: e <= depths[v] <= e + 1 && v in Unknown(g, loaded, source, target))
    && (forall v | v in loaded :: v.Release? && (v == target || !Pruned(v, source, target)))
    && (e == 0 || Bridged(g, source, target, depths))
  }

  lemma RecordingCloses(g: Graph, source: Node, target: Node, loaded: set<Node>, depths: map<Node, nat>, e: nat, last: Node, recorded: map<Node, nat>)
    requires Increasing(g) && target.Release? && Expanded(g, source, target, loaded, depths, e, last)
    requires recorded.Keys == depths.Keys + Unknown(g, loaded, source, target)
    requires forall v | v in recorded ::
               recorded[v] == if v !in Unknown(g, loaded, source, target) then depths[v]
                              else if v in depths && depths[v] <= e + 1 then depths[v] else e + 1
    ensures Frontier(g, source, target, loaded, recorded, e)
  {
    forall b | b in Backwards(g, source, target) && b.0 in loaded ensures b.1 in recorded && recorded[b.1] <= recorded[b.0] + 1 {
      assert (b.1, b.0) in All(g) && b.1 in References(g, loaded);
      if b.1 !in loaded { assert b.1 in Unknown(g, loaded, source, target); }
    }
    forall b, v | b in g.bridges && (v == b.0 || v == b.1) && v.Release? && !Pruned(v, source, target) ensures v in recorded && recorded[v] <= 1 {
      assert v in References(g, loaded);
      if v !in loaded { assert v in Unknown(g, loaded, source, target); }
    }
  }

  lemma ExpandingKeeps(g: Graph, source: Node, target: Node, loaded: set<Node>, depths: map<Node, nat>, e: nat, next: Node)
    requires target.Release? && Frontier(g, source, target, loaded, depths, e)
    requires next in Unknown(g, loaded, source, target) && next in depths
    requires forall v | v in Unknown(g, loaded, source, target) && v in depths :: depths[next] <= depths[v]
    ensures Expanded(g, source, target, loaded + {next}, depths, depths[next], next)
  {
    assert loaded + {next} - {next} == loaded;
    assert References(g, loaded) <= References(g, loaded + {next});
  }

  /** Fetches whatever the planned route needs beyond what discovery loaded. */
  method CompleteExecutables(route: seq<Node>, loaded: set<Node>, fetchable: Node -> bool) returns (r: Result<set<Node>, Failure>)
    requires route != []
    ensures r.Ok? ==> loaded <= r.value && forall v | v in route[1..] :: v in r.value
    ensures r.Err? <==> exists v | v in route[1..] :: v !in loaded && !fetchable(v)
  {
    var executables := loaded;
    for i := 1 to |route|
      invariant loaded <= executables && forall v | v in route[1..i] :: v in executables && (v in loaded || fetchable(v))
      invariant forall v | v in executables :: v in loaded || fetchable(v)
    {
      assert route[1..i + 1] == route[1..i] + [route[i]];
      if route[i] !in executables {
        if !fetchable(route[i]) {
          assert route[i] in route[1..];
          return Err(FetchFailed);
        }
        executables := executables + {route[i]};
      }
    }
    assert route[1..|route|] == route[1..];
    return Ok(executables);
  }

  /** No recorded depth exceeds a true distance. */
  ghost predicate NeverOverstates(g: Graph, target: Node, depths: map<Node, nat>) {
    forall v, p | v in depths && Connects(All(g), v, target, p) :: depths[v] <= Hops(p)
  }

  lemma FrontierNeverOverstates(g: Graph, source: Node, target: Node, loaded: set<Node>, depths: map<Node, nat>, e: nat)
    requires Increasing(g) && target.Release? && Frontier(g, source, target, loaded, depths, e)
    ensures NeverOverstates(g, target, depths)
  {
    forall v, p | v in depths && Connects(All(g), v, target, p) ensures depths[v] <= Hops(p) {
      DepthsNeverOverstate(g, source, target, loaded, depths, e, v, p);
    }
  }

  lemma SettlePlan(g: Graph, source: Node, target: Node, loaded: set<Node>, depths: map<Node, nat>, e: nat, plan: seq<Node>)
    requires Increasing(g) && target.Release? && Frontier(g, source, target, loaded, depths, e)
    requires Shortest(UsableEdges(g, loaded, source), source, target, plan)
    requires Sequenced(All(g)) ==> Canonical(UsableEdges(g, loaded, source), source, target, plan)
    requires forall v | v in depths && v !in loaded :: depths[v] >= Hops(plan)
    ensures Shortest(All(g), source, target, plan) && (Sequenced(All(g)) ==> Canonical(All(g), source, target, plan))
  {
    NothingUnknownIsShorter(g, source, target, loaded, depths, e, plan);
    if Sequenced(All(g)) { DiscoveryIsExact(g, source, target, loaded, depths, e, plan); }
  }

  datatype Verdict = Settled(route: seq<Node>) | Exhausted | Fetch(next: Node)

  /** What one round decides: a route that stands, nothing left to look at, or the next release to fetch. */
  method Judge(g: Graph, source: Node, target: Node, resume: Option<seq<Node>>, loaded: set<Node>, depths: map<Node, nat>, ghost e: nat)
    returns (verdict: Verdict)
    requires Increasing(g) && target.Release? && Frontier(g, source, target, loaded, depths, e)
    requires Unknown(g, loaded, source, target) <= depths.Keys
    ensures verdict.Settled? && resume.None? ==> Shortest(All(g), source, target, verdict.route) && Hops(verdict.route) <= MAX_HOPS
    ensures verdict.Settled? && resume.None? && Sequenced(All(g)) ==> Canonical(All(g), source, target, verdict.route)
    ensures verdict.Settled? && resume.Some? ==> verdict.route == resume.value && Connects(All(g), source, target, verdict.route)
    ensures verdict.Exhausted? && resume.None? ==> AtLeast(All(g), source, target, MAX_HOPS + 1)
    ensures verdict.Fetch? ==> verdict.next !in loaded && verdict.next in depths
    ensures verdict.Fetch? ==> Expanded(g, source, target, loaded + {verdict.next}, depths, depths[verdict.next], verdict.next)
  {
    var refs := Unknown(g, loaded, source, target);
    var plan := None;
    if resume.Some? || Known(g, loaded, source) {
      plan := Plan(g, loaded, source, target);
    }
    if plan.Some? {
      UsableIsReal(g, loaded, source, target, plan.value);
      if resume.Some? && plan == resume { return Settled(plan.value); }
      if resume.None? && (Hops(plan.value) == 0 || refs == {}) {
        SettlePlan(g, source, target, loaded, depths, e, plan.value);
        return Settled(plan.value);
      }
    }
    if refs == {} {
      if resume.None? {
        BridgesAreReady(g, source, target, loaded, depths, e);
        NothingUnknownMeansNoRoute(g, source, target, loaded, depths, e);
      }
      return Exhausted;
    }
    var next := First(refs, depths, source);
    if resume.None? && plan.Some? && depths[next] >= Hops(plan.value) {
      SettlePlan(g, source, target, loaded, depths, e, plan.value);
      return Settled(plan.value);
    }
    ExpandingKeeps(g, source, target, loaded, depths, e, next);
    return Fetch(next);
  }

  /**
   Discovers a route. A fresh operation gets the very route that planning in the
   whole graph would give, though only part of it was loaded; `NoRoute` means the
   whole graph has none of admissible length. A resumed operation gets exactly its
   recorded route.
   */
  method Discover(g: Graph, source: Node, target: Node, resume: Option<seq<Node>>, fetchable: Node -> bool)
    returns (r: Result<seq<Node>, Failure>, executables: set<Node>, depths: map<Node, nat>)
    requires Increasing(g) && target.Release?
    ensures r.Ok? && resume.None? ==> Shortest(All(g), source, target, r.value) && Hops(r.value) <= MAX_HOPS
    ensures r.Ok? && resume.None? && Sequenced(All(g)) ==> Canonical(All(g), source, target, r.value)
    ensures r.Ok? && resume.Some? ==> r.value == resume.value && Connects(All(g), source, target, r.value)
    ensures r.Ok? ==> forall v | v in r.value[1..] :: v in executables
    ensures r == Err(NoRoute) && resume.None? ==> AtLeast(All(g), source, target, MAX_HOPS + 1)
    ensures NeverOverstates(g, target, depths)
  {
    executables, depths := {target}, map[target := 0];
    var expanded := 0;
    ghost var last := target;
    while true
      invariant Expanded(g, source, target, executables, depths, expanded, last) && |executables| <= MAX_RELEASES
      decreases MAX_RELEASES - |executables|
    {
      ghost var before := depths;
      depths := RecordDepths(Unknown(g, executables, source, target), depths, expanded);
      RecordingCloses(g, source, target, executables, before, expanded, last, depths);
      FrontierNeverOverstates(g, source, target, executables, depths, expanded);
      var verdict := Judge(g, source, target, resume, executables, depths, expanded);
      if verdict.Exhausted? { return Err(NoRoute), executables, depths; }
      if verdict.Settled? {
        var complete := CompleteExecutables(verdict.route, executables, fetchable);
        if complete.Err? { return Err(FetchFailed), executables, depths; }
        return Ok(verdict.route), complete.value, depths;
      }
      if |executables| >= MAX_RELEASES { return Err(TooManyReleases), executables, depths; }
      if !fetchable(verdict.next) { return Err(FetchFailed), executables, depths; }
      executables, expanded, last := executables + {verdict.next}, depths[verdict.next], verdict.next;
    }
  }

  lemma UsableIsReal(g: Graph, loaded: set<Node>, source: Node, target: Node, route: seq<Node>)
    requires Connects(UsableEdges(g, loaded, source), source, target, route)
    ensures Connects(All(g), source, target, route)
  {
    forall k | 0 <= k < |route| - 1 ensures (route[k], route[k + 1]) in All(g) {
      assert (route[k], route[k + 1]) in UsableEdges(g, loaded, source);
    }
  }
}
