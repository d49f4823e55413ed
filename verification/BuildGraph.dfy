/**
 tools/build_graph.py: which recipe BuildRequires which, how config stages
 break the cycles, and the wave each recipe of a build set goes in.
 */
module BuildGraph {
  import opened Reachability
  import C = Components

  type Capability = string

  datatype Recipe = Recipe(buildrequires: seq<Capability>, provided: set<Capability>)

  // -------------------------------------------------------------------- edges

  /** Recipe `m` answers `cap`, by its spec or by its published binaries. */
  predicate Provides(recipes: map<Name, Recipe>, published: map<Name, set<Capability>>, m: Name, cap: Capability) {
    m in recipes && (cap in recipes[m].provided || (m in published && cap in published[m]))
  }

  /** `d.setdefault(k, set()).add(v)` */
  function Added(d: map<string, set<string>>, k: string, v: string): (r: map<string, set<string>>)
    ensures forall j, x :: x in Succ(r, j) <==> x in Succ(d, j) || (j == k && x == v)
  {
    d[k := Succ(d, k) + {v}]
  }

  method AddAll(d0: map<string, set<string>>, keys: set<string>, v: string) returns (d: map<string, set<string>>)
    ensures forall k, x :: x in Succ(d, k) <==> x in Succ(d0, k) || (k in keys && x == v)
  {
    d := d0;
    var todo := keys;
    while todo != {}
      invariant todo <= keys
      invariant forall k, x :: x in Succ(d, k) <==> x in Succ(d0, k) || (k in keys && k !in todo && x == v)
      decreases todo
    {
      var k :| k in todo;
      d := Added(d, k, v);
      todo := todo - {k};
    }
  }

  method Providers(recipes: map<Name, Recipe>, published: map<Name, set<Capability>>)
    returns (providers: map<Capability, set<Name>>)
    ensures forall cap, m :: m in Succ(providers, cap) <==> Provides(recipes, published, m, cap)
  {
    providers := map[];
    assert forall cap, m :: m !in Succ(providers, cap);
    var todo := recipes.Keys;
    while todo != {}
      invariant todo <= recipes.Keys
      invariant forall cap, m :: m in Succ(providers, cap) <==> m in recipes && m !in todo && cap in recipes[m].provided
      decreases todo
    {
      var m :| m in todo;
      providers := AddAll(providers, recipes[m].provided, m);
      todo := todo - {m};
    }
    todo := published.Keys;
    while todo != {}
      invariant todo <= published.Keys
      invariant forall cap, m :: m in Succ(providers, cap) <==>
                  m in recipes && (cap in recipes[m].provided || (m in published && m !in todo && cap in published[m]))
      decreases todo
    {
      var m :| m in todo;
      if m in recipes {
        providers := AddAll(providers, published[m], m);
      }
      todo := todo - {m};
    }
  }

  ghost predicate Needs(recipes: map<Name, Recipe>, published: map<Name, set<Capability>>, n: Name, m: Name) {
    n in recipes && m != n && exists cap :: cap in recipes[n].buildrequires && Provides(recipes, published, m, cap)
  }

  /** Package to the factory packages it BuildRequires, itself never among them. */
  method Edges(recipes: map<Name, Recipe>, published: map<Name, set<Capability>>) returns (edges: Graph)
    ensures edges.Keys == recipes.Keys
    ensures forall n, m :: m in Succ(edges, n) <==> Needs(recipes, published, n, m)
    ensures forall n, m :: m in Succ(edges, n) <==>
              && n in recipes && m in recipes && m != n
              && exists cap :: cap in recipes[n].buildrequires
                  && (cap in recipes[m].provided || (m in published && cap in published[m]))
  {
    var providers := Providers(recipes, published);
    edges := map[];
    var todo := recipes.Keys;
    while todo != {}
      invariant todo <= recipes.Keys && edges.Keys == recipes.Keys - todo
      invariant forall n, m | n in edges :: m in edges[n] <==> Needs(recipes, published, n, m)
      decreases todo
    {
      var n :| n in todo;
      var caps := recipes[n].buildrequires;
      var needs := {};
      for i := 0 to |caps|
        invariant forall m :: m in needs <==> exists j :: 0 <= j < i && Provides(recipes, published, m, caps[j])
      {
        needs := needs + Succ(providers, caps[i]);
      }
      edges := edges[n := needs - {n}];
      todo := todo - {n};
    }
  }

  /** The reverse of the edges: provider to the packages that BuildRequire it. */
  method Dependents(edges: Graph) returns (reverse: Graph)
    ensures forall p, c :: c in Succ(reverse, p) <==> p in Succ(edges, c)
  {
    reverse := map[];
    assert forall p, c :: c !in Succ(reverse, p);
    var todo := edges.Keys;
    while todo != {}
      invariant todo <= edges.Keys
      invariant forall p, c :: c in Succ(reverse, p) <==> c in edges && c !in todo && p in edges[c]
      decreases todo
    {
      var c :| c in todo;
      reverse := AddAll(reverse, edges[c], c);
      todo := todo - {c};
    }
  }

  // ------------------------------------------------------------------- cycles

  function Stage(stages: map<Name, int>, n: Name): int {
    if n in stages then stages[n] else 0
  }

  /** `n` lies on a cycle through some other node. */
  ghost predicate OnCycle(g: Graph, n: Name) {
    exists m :: m != n && Mutual(g, n, m)
  }

  /** The edge from consumer `n` to provider `p` survives. */
  ghost predicate Kept(g: Graph, stages: map<Name, int>, n: Name, p: Name) {
    p in Succ(g, n) && (OnCycle(g, n) && Mutual(g, n, p) ==> Stage(stages, p) < Stage(stages, n))
  }

  ghost predicate IsBroken(nodes: set<Name>, g: Graph, stages: map<Name, int>, restricted: Graph) {
    restricted.Keys == nodes && forall n, p | n in nodes :: p in restricted[n] <==> Kept(g, stages, n, p)
  }

  /** Members of one cycle that config leaves at one stage. */
  ghost predicate IsUnordered(g: Graph, stages: map<Name, int>, group: set<Name>) {
    && |group| > 1
    && exists n :: n in group && forall m :: m in group <==> Mutual(g, n, m) && Stage(stages, m) == Stage(stages, n)
  }

  predicate Survives(component: set<Name>, stages: map<Name, int>, n: Name, p: Name) {
    p !in component || Stage(stages, p) < Stage(stages, n)
  }

  /** The members of `c` by stage. */
  ghost predicate AreLevels(stages: map<Name, int>, c: set<Name>, levels: map<int, set<Name>>) {
    forall s, n :: s in levels && n in levels[s] <==> n in c && Stage(stages, n) == s
  }

  /** The loop over one component's members: filter their edges, sort them into levels. */
  method BreakComponent(component: set<Name>, stages: map<Name, int>, restricted0: Graph)
    returns (restricted: Graph, levels: map<int, set<Name>>)
    requires component <= restricted0.Keys
    ensures restricted.Keys == restricted0.Keys
    ensures forall n | n in restricted :: restricted[n] ==
              if n in component then set p | p in restricted0[n] && Survives(component, stages, n, p)
              else restricted0[n]
    ensures AreLevels(stages, component, levels)
  {
    restricted, levels := restricted0, map[];
    var todo := component;
    while todo != {}
      invariant todo <= component && restricted.Keys == restricted0.Keys
      invariant forall n | n in restricted :: restricted[n] ==
                  if n in component && n !in todo then set p | p in restricted0[n] && Survives(component, stages, n, p)
                  else restricted0[n]
      invariant forall s, n :: s in levels && n in levels[s] <==> n in component && n !in todo && Stage(stages, n) == s
      decreases todo
    {
      var n :| n in todo;
      var s := Stage(stages, n);
      levels := levels[s := (if s in levels then levels[s] else {}) + {n}];
      restricted := restricted[n := set p | p in restricted[n] && Survives(component, stages, n, p)];
      todo := todo - {n};
    }
  }

  /** `unordered.extend(members for members in levels.values() if len(members) > 1)` */
  method Report(levels: map<int, set<Name>>, unordered0: seq<set<Name>>) returns (unordered: seq<set<Name>>)
    ensures forall m :: m in unordered <==> m in unordered0 || (|m| > 1 && m in levels.Values)
    ensures unordered0 <= unordered
    ensures forall i, j | |unordered0| <= i < j < |unordered| :: unordered[i] != unordered[j]
  {
    unordered := unordered0;
    var todo := levels.Values;
    while todo != {}
      invariant todo <= levels.Values && unordered0 <= unordered
      invariant forall i | |unordered0| <= i < |unordered| :: unordered[i] !in todo
      invariant forall i, j | |unordered0| <= i < j < |unordered| :: unordered[i] != unordered[j]
      invariant forall m :: m in unordered <==> m in unordered0 || (|m| > 1 && m in levels.Values && m !in todo)
      decreases todo
    {
      var members :| members in todo;
      if |members| > 1 {
        unordered := unordered + [members];
      }
      todo := todo - {members};
    }
  }

  lemma TwoMembers(c: set<Name>, m: Name, n: Name)
    requires m in c && n in c && m != n
    ensures |c| != 1
  {
    assert |c - {m}| > 0;
  }

  /** A node is on a cycle exactly when its component has another member. */
  lemma OnCycleIffCompany(g: Graph, c: set<Name>, n: Name)
    requires IsScc(g, c) && n in c
    ensures OnCycle(g, n) <==> |c| != 1
  {
    if OnCycle(g, n) {
      var m :| m != n && Mutual(g, n, m);
      TwoMembers(c, n, m);
    }
    if |c| != 1 {
      assert c != {n};
      assert c - {n} != {};
      var m :| m in c - {n};
      assert Mutual(g, n, m);
    }
  }

  /** What the loop body does to one component's own edges. */
  lemma FilteredIsKept(g: Graph, stages: map<Name, int>, c: set<Name>, n: Name, p: Name)
    requires IsScc(g, c) && n in c && p in Succ(g, n)
    ensures Kept(g, stages, n, p) <==> |c| == 1 || Survives(c, stages, n, p)
  {
    OnCycleIffCompany(g, c, n);
  }

  /** An unordered group lies inside one component. */
  lemma UnorderedInside(g: Graph, stages: map<Name, int>, group: set<Name>, c: set<Name>, n: Name)
    requires IsScc(g, c) && IsUnordered(g, stages, group) && n in group && n in c
    ensures group <= c && |c| != 1
  {
    var k :| k in group && forall m :: m in group <==> Mutual(g, k, m) && Stage(stages, m) == Stage(stages, k);
    assert Mutual(g, k, n);
    forall m | m in group ensures m in c {
      ReachesTransitive(g, n, k, m);
      ReachesTransitive(g, m, k, n);
    }
    assert group != {n} && group - {n} != {};
    var other :| other in group - {n};
    TwoMembers(c, n, other);
  }

  lemma LevelIsUnordered(g: Graph, stages: map<Name, int>, c: set<Name>, levels: map<int, set<Name>>, s: int)
    requires IsScc(g, c) && AreLevels(stages, c, levels) && s in levels && |levels[s]| > 1
    ensures IsUnordered(g, stages, levels[s]) && levels[s] <= c
  {
    assert levels[s] != {};
    var n :| n in levels[s];
    hide Mutual;
    forall x ensures x in levels[s] <==> Mutual(g, n, x) && Stage(stages, x) == Stage(stages, n) {}
  }

  lemma UnorderedIsLevel(g: Graph, stages: map<Name, int>, c: set<Name>, levels: map<int, set<Name>>, m: set<Name>)
    requires IsScc(g, c) && AreLevels(stages, c, levels) && IsUnordered(g, stages, m) && m <= c
    ensures |m| > 1 && m in levels.Values
  {
    hide Mutual;
    var k :| k in m && forall x :: x in m <==> Mutual(g, k, x) && Stage(stages, x) == Stage(stages, k);
    var s := Stage(stages, k);
    assert s in levels && k in levels[s];
    assert levels[s] == m;
  }

  /** The levels of two or more members are exactly the component's unordered groups. */
  lemma LevelsAreUnordered(g: Graph, stages: map<Name, int>, c: set<Name>, levels: map<int, set<Name>>)
    requires IsScc(g, c) && AreLevels(stages, c, levels)
    ensures forall m :: |m| > 1 && m in levels.Values <==> IsUnordered(g, stages, m) && m <= c
  {
    hide AreLevels, IsUnordered, IsScc;
    forall s | s in levels && |levels[s]| > 1 ensures IsUnordered(g, stages, levels[s]) && levels[s] <= c {
      LevelIsUnordered(g, stages, c, levels, s);
    }
    forall m ensures |m| > 1 && m in levels.Values <==> IsUnordered(g, stages, m) && m <= c {
      if IsUnordered(g, stages, m) && m <= c { UnorderedIsLevel(g, stages, c, levels, m); }
    }
  }

  /** Every reported group is made of nodes of the graph. */
  lemma UnorderedInNodes(g: Graph, stages: map<Name, int>, group: set<Name>)
    requires IsUnordered(g, stages, group)
    ensures group != {} && group <= g.Keys
  {
    var k :| k in group && forall m :: m in group <==> Mutual(g, k, m) && Stage(stages, m) == Stage(stages, k);
    forall x | x in group ensures x in g.Keys {
      assert group != {x} && group - {x} != {};
      var y :| y in group - {x};
      ReachesTransitive(g, x, k, y);
      ReachesOther(g, x, y);
    }
  }

  lemma ReachesOther(g: Graph, u: Name, v: Name)
    requires Reaches(g, u, v) && u != v
    ensures u in g
  {
    var p :| Joins(g, p, u, v);
  }

  /** Groups inside what is done, after one more component: the old ones and the new component's. */
  lemma UnorderedStep(g: Graph, stages: map<Name, int>, components: seq<set<Name>>, done: set<Name>, c: set<Name>,
                      m: set<Name>)
    requires IsScc(g, c)
    requires forall j | 0 <= j < |components| :: IsScc(g, components[j]) && components[j] <= done
    requires forall n | n in done :: exists j :: 0 <= j < |components| && n in components[j]
    ensures IsUnordered(g, stages, m) && m <= done + c
            <==> (IsUnordered(g, stages, m) && m <= done) || (|c| != 1 && IsUnordered(g, stages, m) && m <= c)
  {
    if IsUnordered(g, stages, m) {
      var n :| n in m && forall x :: x in m <==> Mutual(g, n, x) && Stage(stages, x) == Stage(stages, n);
      if n in c {
        UnorderedInside(g, stages, m, c, n);
      } else if n in done {
        var j :| 0 <= j < |components| && n in components[j];
        UnorderedInside(g, stages, m, components[j], n);
      }
    }
  }

  /** One component's edges afterwards. */
  ghost predicate Broke(c: set<Name>, stages: map<Name, int>, before: Graph, after: Graph) {
    && after.Keys == before.Keys
    && forall n | n in after :: after[n] ==
         if |c| != 1 && n in c then set p | p in before[n] && Survives(c, stages, n, p) else before[n]
  }

  /** One component's groups join the report. */
  ghost predicate Reported(g: Graph, c: set<Name>, stages: map<Name, int>, before: seq<set<Name>>,
                           after: seq<set<Name>>) {
    forall m :: m in after <==> m in before || (|c| != 1 && IsUnordered(g, stages, m) && m <= c)
  }

  /** The body of the loop over the components. */
  method DealWith(ghost g: Graph, component: set<Name>, stages: map<Name, int>, restricted0: Graph,
                  unordered0: seq<set<Name>>)
    returns (restricted: Graph, unordered: seq<set<Name>>)
    requires IsScc(g, component) && component <= restricted0.Keys
    ensures Broke(component, stages, restricted0, restricted)
    ensures Reported(g, component, stages, unordered0, unordered)
  {
    hide IsUnordered, IsScc, Survives, AreLevels;
    restricted, unordered := restricted0, unordered0;
    if |component| != 1 {
      var levels;
      restricted, levels := BreakComponent(component, stages, restricted);
      unordered := Report(levels, unordered);
      LevelsAreUnordered(g, stages, component, levels);
    }
  }

  /**
   The edges inside `nodes`, each cycle broken by config stage, and the groups
   of cycle members that config does not order.
   */
  method BreakCycles(nodes: set<Name>, edges: Graph, stages: map<Name, int>, unordered0: seq<set<Name>>)
    returns (restricted: Graph, unordered: seq<set<Name>>)
    ensures IsBroken(nodes, C.Induced(nodes, edges), stages, restricted)
    ensures forall m :: m in unordered <==> m in unordered0 || IsUnordered(C.Induced(nodes, edges), stages, m)
  {
    hide IsUnordered, IsScc, Kept, BrokenSoFar, ReportedSoFar, Covers, Reported;
    ghost var g := C.Induced(nodes, edges);
    restricted, unordered := C.Induced(nodes, edges), unordered0;
    assert C.Induced(nodes, restricted) == g;
    var components := C.Components(nodes, restricted);
    ghost var done := {};
    NothingDone(g, stages, unordered0);
    NothingCovered(components);
    for i := 0 to |components|
      invariant restricted.Keys == nodes && done <= nodes
      invariant Covers(components[..i], done)
      invariant BrokenSoFar(g, stages, done, restricted)
      invariant ReportedSoFar(g, stages, unordered0, done, unordered)
    {
      var component := components[i];
      ghost var before, reported := restricted, unordered;
      NextComponent(nodes, components, i, done);
      restricted, unordered := DealWith(g, component, stages, restricted, unordered);
      BrokenStep(g, stages, done, component, before, restricted);
      ReportStep(g, stages, unordered0, components[..i], done, component, reported, unordered);
      CoversStep(components, i, done);
      done := done + component;
    }
    assert components[..|components|] == components;
    AllCovered(nodes, components, done);
    AllDone(g, stages, nodes, done, restricted, unordered0, unordered);
  }

  /** `done` is exactly the union of some components. */
  ghost predicate Covers(components: seq<set<Name>>, done: set<Name>) {
    && (forall j | 0 <= j < |components| :: components[j] <= done)
    && (forall n | n in done :: exists j :: 0 <= j < |components| && n in components[j])
  }

  lemma NothingCovered(components: seq<set<Name>>)
    ensures Covers(components[..0], {})
  {
  }

  lemma NextComponent(nodes: set<Name>, components: seq<set<Name>>, i: nat, done: set<Name>)
    requires i < |components| && Covers(components[..i], done)
    requires forall n :: n in nodes <==> exists j :: 0 <= j < |components| && n in components[j]
    requires forall j, k | 0 <= j < k < |components| :: components[j] !! components[k]
    ensures components[i] <= nodes && components[i] !! done
  {
    forall n | n in done ensures n !in components[i] {
      var j :| 0 <= j < i && n in components[..i][j];
      assert n in components[j] && components[j] !! components[i];
    }
  }

  lemma AllCovered(nodes: set<Name>, components: seq<set<Name>>, done: set<Name>)
    requires Covers(components, done)
    requires forall n :: n in nodes <==> exists j :: 0 <= j < |components| && n in components[j]
    ensures nodes <= done
  {
  }

  lemma CoversStep(components: seq<set<Name>>, i: nat, done: set<Name>)
    requires i < |components| && Covers(components[..i], done)
    ensures Covers(components[..i + 1], done + components[i])
  {
    var next := components[..i + 1];
    forall n | n in done + components[i] ensures exists j :: 0 <= j < |next| && n in next[j] {
      if n in done {
        var j :| 0 <= j < i && n in components[..i][j];
        assert n in next[j];
      } else {
        assert n in next[i];
      }
    }
  }

  /** The report holds what it held before, and the groups among the nodes dealt with. */
  ghost predicate ReportedSoFar(g: Graph, stages: map<Name, int>, unordered0: seq<set<Name>>, done: set<Name>,
                                unordered: seq<set<Name>>) {
    forall m :: m in unordered <==> m in unordered0 || (IsUnordered(g, stages, m) && m <= done)
  }

  lemma ReportStep(g: Graph, stages: map<Name, int>, unordered0: seq<set<Name>>, components: seq<set<Name>>,
                   done: set<Name>, c: set<Name>, before: seq<set<Name>>, after: seq<set<Name>>)
    requires IsScc(g, c) && Covers(components, done)
    requires forall j | 0 <= j < |components| :: IsScc(g, components[j])
    requires ReportedSoFar(g, stages, unordered0, done, before)
    requires Reported(g, c, stages, before, after)
    ensures ReportedSoFar(g, stages, unordered0, done + c, after)
  {
    hide IsScc, IsUnordered;
    forall m { UnorderedStep(g, stages, components, done, c, m); }
  }

  lemma NothingDone(g: Graph, stages: map<Name, int>, unordered0: seq<set<Name>>)
    ensures ReportedSoFar(g, stages, unordered0, {}, unordered0) && BrokenSoFar(g, stages, {}, g)
  {
    forall m | IsUnordered(g, stages, m) { UnorderedInNodes(g, stages, m); }
  }

  lemma AllDone(g: Graph, stages: map<Name, int>, nodes: set<Name>, done: set<Name>, restricted: Graph,
                unordered0: seq<set<Name>>, unordered: seq<set<Name>>)
    requires nodes == g.Keys == restricted.Keys && nodes <= done
    requires BrokenSoFar(g, stages, done, restricted) && ReportedSoFar(g, stages, unordered0, done, unordered)
    ensures IsBroken(nodes, g, stages, restricted)
    ensures forall m :: m in unordered <==> m in unordered0 || IsUnordered(g, stages, m)
  {
    hide Kept;
    forall m | IsUnordered(g, stages, m) { UnorderedInNodes(g, stages, m); }
    forall n, p | n in nodes ensures p in restricted[n] <==> Kept(g, stages, n, p) {
      assert p in Succ(restricted, n) <==> Kept(g, stages, n, p);
    }
  }

  /** Edges of the nodes dealt with are final; the others are untouched. */
  ghost predicate BrokenSoFar(g: Graph, stages: map<Name, int>, done: set<Name>, restricted: Graph) {
    forall n, p {:trigger p in Succ(restricted, n)} | n in restricted ::
      p in Succ(restricted, n) <==> if n in done then Kept(g, stages, n, p) else p in Succ(g, n)
  }

  lemma BrokenStep(g: Graph, stages: map<Name, int>, done: set<Name>, c: set<Name>, before: Graph, after: Graph)
    requires IsScc(g, c) && c !! done && c <= before.Keys
    requires BrokenSoFar(g, stages, done, before) && Broke(c, stages, before, after)
    ensures BrokenSoFar(g, stages, done + c, after)
  {
    hide IsScc, Kept;
    forall n, p | n in after
      ensures p in Succ(after, n) <==> if n in done + c then Kept(g, stages, n, p) else p in Succ(g, n)
    {
      assert p in Succ(before, n) <==> if n in done then Kept(g, stages, n, p) else p in Succ(g, n);
      if n in c {
        if p in Succ(g, n) { FilteredIsKept(g, stages, c, n, p); }
        KeptIsEdge(g, stages, n, p);
      }
    }
  }

  lemma KeptIsEdge(g: Graph, stages: map<Name, int>, n: Name, p: Name)
    ensures Kept(g, stages, n, p) ==> p in Succ(g, n)
  {
  }

  // ----------------------------------------------------- what breaking achieves

  /** A dropped edge runs inside a cycle, and config staged its provider later or left the two unordered. */
  lemma DroppedEdge(nodes: set<Name>, g: Graph, stages: map<Name, int>, restricted: Graph, n: Name, p: Name)
    requires IsBroken(nodes, g, stages, restricted)
    requires n in nodes && n != p && p in Succ(g, n) && p !in restricted[n]
    ensures Mutual(g, n, p)
    ensures || Stage(stages, p) > Stage(stages, n)
            || exists group :: IsUnordered(g, stages, group) && n in group && p in group
  {
    assert !Kept(g, stages, n, p);
    if Stage(stages, p) == Stage(stages, n) {
      ReachesOther(g, p, n);
      var group := SameStageGroup(g, stages, n, p);
    }
  }

  lemma SameStageGroup(g: Graph, stages: map<Name, int>, n: Name, p: Name) returns (group: set<Name>)
    requires n != p && Mutual(g, n, p) && Stage(stages, n) == Stage(stages, p)
    ensures IsUnordered(g, stages, group) && n in group && p in group
  {
    group := set m | m in g.Keys && Mutual(g, n, m) && Stage(stages, m) == Stage(stages, n);
    ReachesSelf(g, n);
    forall m | Mutual(g, n, m) ensures m in g.Keys {
      if m == n { ReachesOther(g, n, p); } else { ReachesOther(g, m, n); }
    }
    TwoMembers(group, n, p);
    assert |group| != 0;
  }

  /**
   On the config's own map: an edge between two members of one cycle survives exactly when its provider's stage
   is the smaller, and a package without a stage counts as 0; every other edge survives.
   */
  lemma BrokenByConfig(nodes: set<Name>, g: Graph, stages: map<Name, int>, restricted: Graph, u: Name, v: Name)
    requires IsBroken(nodes, g, stages, restricted) && u in nodes
    ensures v in restricted[u] ==> v in Succ(g, u)
    ensures v in Succ(g, u) && !Mutual(g, u, v) ==> v in restricted[u]
    ensures v in Succ(g, u) && Mutual(g, u, v) && u != v ==>
      && (u in stages && v in stages ==> (v in restricted[u] <==> stages[v] < stages[u]))
      && (u in stages && v !in stages ==> (v in restricted[u] <==> 0 < stages[u]))
      && (u !in stages && v in stages ==> (v in restricted[u] <==> stages[v] < 0))
      && (u !in stages && v !in stages ==> v !in restricted[u])
  {
  }

  /** With nothing reported, config orders every two members of a cycle. */
  lemma NoGroupMeansOrdered(g: Graph, stages: map<Name, int>, u: Name, v: Name)
    requires u != v && Mutual(g, u, v)
    requires forall group :: !IsUnordered(g, stages, group)
    ensures Stage(stages, u) != Stage(stages, v)
  {
    if Stage(stages, u) == Stage(stages, v) {
      var group := SameStageGroup(g, stages, u, v);
    }
  }

  ghost predicate IsCycle(g: Graph, p: seq<Name>) {
    |p| > 1 && IsPath(g, p) && p[0] == p[|p| - 1]
  }

  ghost predicate Acyclic(g: Graph) {
    forall p :: !IsCycle(g, p)
  }

  /** The only self-edges left alone: those of a component of one node. */
  ghost predicate LoneSelfEdge(g: Graph, n: Name) {
    n in Succ(g, n) && !OnCycle(g, n)
  }

  ghost predicate NoLoneSelfEdge(g: Graph) {
    forall n :: !LoneSelfEdge(g, n)
  }

  lemma {:induction false} SubgraphPath(r: Graph, g: Graph, p: seq<Name>)
    requires IsPath(r, p) && forall n, m | m in Succ(r, n) :: m in Succ(g, n)
    ensures IsPath(g, p)
    decreases |p|
  {
    if |p| > 1 { SubgraphPath(r, g, p[1..]); }
  }

  /** Along a surviving path whose end leads back to its start, stages fall. */
  lemma {:induction false} StagesFall(nodes: set<Name>, g: Graph, stages: map<Name, int>, restricted: Graph,
                                      p: seq<Name>)
    requires IsBroken(nodes, g, stages, restricted)
    requires IsPath(restricted, p) && |p| > 1 && Reaches(g, p[|p| - 1], p[0])
    requires NoLoneSelfEdge(g)
    ensures Stage(stages, p[|p| - 1]) < Stage(stages, p[0])
    decreases |p|
  {
    hide Reaches;
    var q, last := p[1..], p[|p| - 1];
    assert Kept(g, stages, p[0], p[1]);
    assert Reaches(g, p[1], last) by {
      SubgraphPath(restricted, g, q);
      JoinsReaches(g, q);
    }
    ReachesEdge(g, p[0], p[1]);
    ReachesTransitive(g, p[1], last, p[0]);
    assert Mutual(g, p[0], p[1]);
    assert OnCycle(g, p[0]) by {
      if p[0] == p[1] { assert !LoneSelfEdge(g, p[0]); }
    }
    if |p| > 2 {
      ReachesTransitive(g, last, p[0], p[1]);
      StagesFall(nodes, g, stages, restricted, q);
    }
  }

  lemma JoinsReaches(g: Graph, p: seq<Name>)
    requires IsPath(g, p)
    ensures Reaches(g, p[0], p[|p| - 1])
  {
    assert Joins(g, p, p[0], p[|p| - 1]);
  }

  /** What survives is acyclic, exactly when no component of one node needs itself. */
  lemma AcyclicIff(nodes: set<Name>, g: Graph, stages: map<Name, int>, restricted: Graph)
    requires IsBroken(nodes, g, stages, restricted) && g.Keys == nodes
    ensures Acyclic(restricted) <==> NoLoneSelfEdge(g)
  {
    if NoLoneSelfEdge(g) {
      forall p ensures !IsCycle(restricted, p) {
        if IsCycle(restricted, p) {
          ReachesSelf(g, p[0]);
          StagesFall(nodes, g, stages, restricted, p);
        }
      }
    }
    forall n | LoneSelfEdge(g, n) ensures IsCycle(restricted, [n, n]) {
      assert Kept(g, stages, n, n);
      assert IsPath(restricted, [n, n][1..]);
    }
  }
}
