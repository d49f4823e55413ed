/** `waves` of tools/build_graph.py: the memoised longest path over the surviving edges. */
module Waves {
  import opened Common
  import opened Ordering
  import opened Reachability
  import opened BuildGraph
  import C = Components

  /** `Loop` is the source's AssertionError, carrying the trail it prints. */
  datatype Result<+T> = Ok(value: T) | Loop(trail: seq<Name>)

  /** Every solved node sits right above its highest provider. */
  ghost predicate Solved(r: Graph, wave: map<Name, nat>) {
    && (forall n, p {:trigger n in wave, p in Succ(r, n)} | n in wave && p in Succ(r, n) ::
        p in wave && wave[p] < wave[n])
    && (forall n {:trigger Tight(r, wave, n)} | n in wave && wave[n] > 0 :: Tight(r, wave, n))
  }

  ghost predicate Tight(r: Graph, wave: map<Name, nat>, n: Name)
    requires n in wave
  {
    exists p :: p in Succ(r, n) && p in wave && wave[n] == wave[p] + 1
  }

  /** `trail` leads, provider by provider, to `node`. */
  ghost predicate Trail(r: Graph, trail: seq<Name>, node: Name) {
    IsPath(r, trail + [node])
  }

  lemma TrailExtends(r: Graph, trail: seq<Name>, node: Name, p: Name)
    requires Trail(r, trail, node) && p in Succ(r, node)
    ensures Trail(r, trail + [node], p)
  {
    assert IsPath(r, [node, p][1..]);
    PathConcat(r, trail + [node], [node, p]);
    assert trail + [node] + [node, p][1..] == trail + [node] + [p];
  }

  /** A path whose last node occurs earlier in it: what the AssertionError prints. */
  ghost predicate ClosesCycle(r: Graph, trail: seq<Name>) {
    |trail| > 1 && IsPath(r, trail) && trail[|trail| - 1] in trail[..|trail| - 1]
  }

  /** Meeting a node of the trail again closes a cycle. */
  lemma {:induction false} TrailCloses(r: Graph, trail: seq<Name>, node: Name)
    requires Trail(r, trail, node) && node in trail
    ensures !Acyclic(r) && ClosesCycle(r, trail + [node])
    decreases |trail|
  {
    var p := trail + [node];
    if trail[0] == node {
      assert IsCycle(r, p);
    } else {
      assert p[1..] == trail[1..] + [node];
      TrailCloses(r, trail[1..], node);
    }
  }

  /** A later memo table only adds entries. */
  ghost predicate Grows(before: map<Name, nat>, after: map<Name, nat>) {
    forall n | n in before :: n in after && after[n] == before[n]
  }

  /** `deepest` is the largest wave among the providers already asked. */
  ghost predicate Scanned(asked: set<Name>, wave: map<Name, nat>, deepest: nat) {
    && (forall p | p in asked :: p in wave && wave[p] <= deepest)
    && (asked != {} ==> exists p :: p in asked && p in wave && wave[p] == deepest)
    && (asked == {} ==> deepest == 0)
  }

  lemma NothingScanned(wave: map<Name, nat>)
    ensures Scanned({}, wave, 0)
  {
  }

  lemma ScanStep(asked: set<Name>, before: map<Name, nat>, deepest: nat, p: Name, after: map<Name, nat>, d: nat)
    requires Scanned(asked, before, deepest) && Grows(before, after) && p in after && after[p] == d
    ensures Scanned(asked + {p}, after, if d > deepest then d else deepest)
  {
    var now := asked + {p};
    assert p in now;
    if asked != {} {
      var q :| q in asked && q in before && before[q] == deepest;
      assert q in now && after[q] == deepest;
    }
  }

  /** A node's wave, once all its providers have theirs. */
  lemma SolvedAdd(r: Graph, wave: map<Name, nat>, node: Name, deepest: nat)
    requires Solved(r, wave) && node !in wave && Scanned(Succ(r, node), wave, deepest)
    ensures Solved(r, wave[node := if Succ(r, node) == {} then 0 else 1 + deepest])
  {
    var w := wave[node := if Succ(r, node) == {} then 0 else 1 + deepest];
    forall n | n in w && w[n] > 0 ensures Tight(r, w, n) {
      if n == node {
        var p :| p in Succ(r, node) && p in wave && wave[p] == deepest;
        assert p in w && w[n] == w[p] + 1;
      } else {
        assert Tight(r, wave, n);
        var p :| p in Succ(r, n) && p in wave && wave[n] == wave[p] + 1;
        assert p in w && w[n] == w[p] + 1;
      }
    }
    forall n, p {:trigger n in w, p in Succ(r, n)} | n in w && p in Succ(r, n) ensures p in w && w[p] < w[n] {
      if n != node { assert n in wave && p in wave; }
    }
  }

  /** `depth(node, trail)`: the memo table is the state, an exception ends everything. */
  method Depth(r: Graph, node: Name, trail: seq<Name>, wave0: map<Name, nat>)
    returns (d: Result<nat>, wave: map<Name, nat>)
    requires forall n, p | p in Succ(r, n) :: p in r
    requires node in r && Trail(r, trail, node) && Elements(trail) <= r.Keys
    requires Solved(r, wave0) && wave0.Keys <= r.Keys && wave0.Keys !! Elements(trail)
    ensures Solved(r, wave) && Grows(wave0, wave) && wave.Keys <= r.Keys && wave.Keys !! Elements(trail)
    ensures d.Ok? ==> node in wave && d.value == wave[node]
    ensures d.Loop? ==> !Acyclic(r) && ClosesCycle(r, d.trail)
    decreases r.Keys - Elements(trail)
  {
    hide Solved, Scanned, Acyclic, IsPath, ClosesCycle;
    wave := wave0;
    if node in wave {
      return Ok(wave[node]), wave;
    }
    if node in trail {
      TrailCloses(r, trail, node);
      return Loop(trail + [node]), wave;
    }
    var providers := Succ(r, node);
    var deepest: nat := 0;
    var todo := providers;
    assert Scanned({}, wave, 0) by { NothingScanned(wave); }
    assert providers - todo == {};
    assert Elements(trail + [node]) == Elements(trail) + {node};
    while todo != {}
      invariant todo <= providers
      invariant Solved(r, wave) && Grows(wave0, wave) && wave.Keys <= r.Keys && wave.Keys !! Elements(trail + [node])
      invariant Scanned(providers - todo, wave, deepest)
      decreases todo
    {
      var p :| p in todo;
      TrailExtends(r, trail, node, p);
      ghost var before := wave;
      var e;
      e, wave := Depth(r, p, trail + [node], wave);
      if e.Loop? {
        return e, wave;
      }
      ScanStep(providers - todo, before, deepest, p, wave, e.value);
      assert providers - (todo - {p}) == providers - todo + {p};
      if e.value > deepest {
        deepest := e.value;
      }
      todo := todo - {p};
    }
    assert providers - {} == providers;
    SolvedAdd(r, wave, node, deepest);
    wave := wave[node := if providers == {} then 0 else 1 + deepest];
    d := Ok(wave[node]);
  }

  /**
   Waves of the build set, or the AssertionError. The error comes up exactly
   when some node that is on no other cycle needs itself.
   */
  method Waves(build: set<Name>, edges: Graph, stages: map<Name, int>, unordered0: seq<set<Name>>)
    returns (result: Result<map<Name, nat>>, unordered: seq<set<Name>>, ghost restricted: Graph)
    ensures IsBroken(build, C.Induced(build, edges), stages, restricted)
    ensures forall m :: m in unordered <==> m in unordered0 || IsUnordered(C.Induced(build, edges), stages, m)
    ensures result.Ok? <==> NoLoneSelfEdge(C.Induced(build, edges))
    ensures result.Ok? ==> result.value.Keys == build && Solved(restricted, result.value)
    ensures result.Loop? ==> ClosesCycle(restricted, result.trail)
  {
    hide IsUnordered, IsBroken, NoLoneSelfEdge, Solved, Acyclic, Trail, Grows, StrictlySorted, ClosesCycle;
    ghost var g := C.Induced(build, edges);
    var kept;
    kept, unordered := BreakCycles(build, edges, stages, unordered0);
    restricted := kept;
    AcyclicIff(build, g, stages, kept);
    StaysInside(build, g, stages, kept);
    var wave: map<Name, nat> := map[];
    SolvedEmpty(kept);
    var order := Sorted(build);
    for i := 0 to |order|
      invariant Solved(kept, wave) && wave.Keys <= build
      invariant forall j | 0 <= j < i :: order[j] in wave
    {
      ghost var before := wave;
      TrailStart(kept, order[i]);
      var d;
      d, wave := Depth(kept, order[i], [], wave);
      if d.Loop? {
        return Loop(d.trail), unordered, restricted;
      }
      GrowsKeys(before, wave);
    }
    assert forall n | n in build :: n in order;
    SolvedHasNoCycle(kept, wave);
    result := Ok(wave);
  }

  lemma GrowsKeys(before: map<Name, nat>, after: map<Name, nat>)
    requires Grows(before, after)
    ensures before.Keys <= after.Keys
  {
  }

  lemma TrailStart(r: Graph, node: Name)
    ensures Trail(r, [], node) && Elements([]) == {}
  {
    assert [] + [node] == [node];
  }

  lemma SolvedEmpty(r: Graph)
    ensures Solved(r, map[])
  {
  }

  lemma StaysInside(nodes: set<Name>, g: Graph, stages: map<Name, int>, restricted: Graph)
    requires IsBroken(nodes, g, stages, restricted) && g == C.Induced(nodes, g)
    ensures restricted.Keys == nodes && forall n, p | p in Succ(restricted, n) :: p in restricted
  {
    forall n, p | p in Succ(restricted, n) ensures p in restricted {
      assert Kept(g, stages, n, p);
    }
  }

  /** Waves fall along every path, so a fully solved graph has no cycle. */
  lemma {:induction false} WavesFall(r: Graph, wave: map<Name, nat>, p: seq<Name>)
    requires Solved(r, wave) && IsPath(r, p) && p[0] in wave
    ensures p[|p| - 1] in wave && wave[p[|p| - 1]] + |p| - 1 <= wave[p[0]]
    decreases |p|
  {
    if |p| > 1 { WavesFall(r, wave, p[1..]); }
  }

  lemma SolvedHasNoCycle(r: Graph, wave: map<Name, nat>)
    requires Solved(r, wave) && wave.Keys == r.Keys
    ensures Acyclic(r)
  {
    forall p ensures !IsCycle(r, p) {
      if IsCycle(r, p) { WavesFall(r, wave, p); }
    }
  }

  // -------------------------------------------------------------- what waves mean

  /** No assignment that puts every provider strictly earlier gives a node a smaller wave. */
  lemma {:induction false} LeastAssignment(r: Graph, wave: map<Name, nat>, other: map<Name, nat>, n: Name)
    requires Solved(r, wave) && n in wave
    requires other.Keys == wave.Keys
    requires forall m, p {:trigger m in other, p in Succ(r, m)} | m in other && p in Succ(r, m) ::
               p in other && other[p] < other[m]
    ensures wave[n] <= other[n]
    decreases wave[n]
  {
    if wave[n] > 0 {
      assert Tight(r, wave, n);
      var p :| p in Succ(r, n) && p in wave && wave[n] == wave[p] + 1;
      LeastAssignment(r, wave, other, p);
    }
  }

  /** A node's wave is the length of the longest path of providers below it. */
  lemma {:induction false} LongestPath(r: Graph, wave: map<Name, nat>, n: Name) returns (p: seq<Name>)
    requires Solved(r, wave) && n in wave
    ensures IsPath(r, p) && p[0] == n && |p| == wave[n] + 1
    ensures forall q | IsPath(r, q) && q[0] == n :: |q| <= |p|
    decreases wave[n]
  {
    if wave[n] == 0 {
      p := [n];
    } else {
      assert Tight(r, wave, n);
      var m :| m in Succ(r, n) && m in wave && wave[n] == wave[m] + 1;
      var below := LongestPath(r, wave, m);
      p := [n] + below;
      assert p[1..] == below;
    }
    forall q | IsPath(r, q) && q[0] == n ensures |q| <= |p| { WavesFall(r, wave, q); }
  }

  /**
   A provider is built in a strictly earlier wave, if no cycle holds the two or the config stages it earlier.
   */
  lemma WavesByConfig(build: set<Name>, g: Graph, stages: map<Name, int>, kept: Graph, wave: map<Name, nat>, u: Name,
                      v: Name)
    requires IsBroken(build, g, stages, kept) && Solved(kept, wave) && wave.Keys == build
    requires u in build && v in Succ(g, u)
    ensures !Mutual(g, u, v) ==> v in wave && wave[v] < wave[u]
    ensures Mutual(g, u, v) && u != v && u in stages && v in stages && stages[v] < stages[u] ==>
              v in wave && wave[v] < wave[u]
  {
    BrokenByConfig(build, g, stages, kept, u, v);
    hide Mutual, IsBroken;
    assert v in kept[u] ==> v in Succ(kept, u) && u in wave;
  }

  /** `flatpak` and `malcontent` need each other; the config breaks the cycle it was staged for. */
  lemma StagedCycle(bootstrap: Name, flatpak: Name, malcontent: Name, kept: Graph, wave: map<Name, nat>)
    requires bootstrap != flatpak && flatpak != malcontent && malcontent != bootstrap
    requires var nodes := {bootstrap, flatpak, malcontent};
      var edges := map[bootstrap := {}, flatpak := {malcontent, bootstrap}, malcontent := {flatpak}];
      && IsBroken(nodes, C.Induced(nodes, edges), map[bootstrap := 8, flatpak := 9, malcontent := 10], kept)
      && Solved(kept, wave) && wave.Keys == nodes
    ensures wave == map[bootstrap := 0, flatpak := 1, malcontent := 2]
  {
    var nodes := {bootstrap, flatpak, malcontent};
    var edges := map[bootstrap := {}, flatpak := {malcontent, bootstrap}, malcontent := {flatpak}];
    var g, stages := C.Induced(nodes, edges), map[bootstrap := 8, flatpak := 9, malcontent := 10];
    assert Succ(g, bootstrap) == {} && Succ(g, flatpak) == {malcontent, bootstrap} && Succ(g, malcontent) == {flatpak};
    assert Mutual(g, flatpak, malcontent) by {
      ReachesEdge(g, flatpak, malcontent);
      ReachesEdge(g, malcontent, flatpak);
    }
    assert !Mutual(g, flatpak, bootstrap) by {
      assert Closed(g, {bootstrap});
      if Reaches(g, bootstrap, flatpak) { ReachesStaysInside(g, bootstrap, flatpak, {bootstrap}); }
    }
    forall u, v | u in nodes
      ensures v in kept[u] <==> (u == flatpak && v == bootstrap) || (u == malcontent && v == flatpak)
    {
      BrokenByConfig(nodes, g, stages, kept, u, v);
    }
    assert kept[bootstrap] == {} && kept[flatpak] == {bootstrap} && kept[malcontent] == {flatpak};
    assert wave[bootstrap] > 0 ==> Tight(kept, wave, bootstrap);
    OnlyProvider(kept, wave, flatpak, bootstrap);
    OnlyProvider(kept, wave, malcontent, flatpak);
  }

  lemma OnlyProvider(r: Graph, wave: map<Name, nat>, n: Name, p: Name)
    requires Solved(r, wave) && n in wave && Succ(r, n) == {p}
    ensures p in wave && wave[n] == wave[p] + 1
  {
    assert p in Succ(r, n);
    assert wave[n] > 0 ==> Tight(r, wave, n);
  }

  /** The edges `Edges` yields never make `waves` fail, whatever is built and however config stages it. */
  lemma FactoryGraphHasWaves(recipes: map<Name, Recipe>, published: map<Name, set<Capability>>, edges: Graph,
                             build: set<Name>)
    requires forall c, p :: p in Succ(edges, c) <==> Needs(recipes, published, c, p)
    ensures NoLoneSelfEdge(C.Induced(build, edges))
  {
  }

  /** A lone package that needs itself is a component of one, and its edge stays. */
  lemma SelfEdgeExample(n: Name)
    ensures !NoLoneSelfEdge(C.Induced({n}, map[n := {n}]))
  {
    var g := C.Induced({n}, map[n := {n}]);
    assert g.Keys == {n} && g[n] == {n};
    forall m | Mutual(g, n, m) ensures m == n {
      assert Closed(g, {n});
      ReachesStaysInside(g, n, m, {n});
    }
    assert LoneSelfEdge(g, n);
  }
}
