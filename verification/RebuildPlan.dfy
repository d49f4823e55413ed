/** tools/rebuild_plan.py: what a run builds, and which stage job builds it. */
module RebuildPlan {
  import opened Common
  import opened Reachability

  // ------------------------------------------------------------ reverse_closure

  /** Some seed leads to `n` in exactly `hops` steps. */
  ghost predicate InHops(g: Graph, seeds: set<Name>, n: Name, hops: nat) {
    exists p :: IsPath(g, p) && p[0] in seeds && p[|p| - 1] == n && |p| == hops + 1
  }

  ghost predicate ReachedFrom(g: Graph, seeds: set<Name>, n: Name) {
    exists s :: s in seeds && Reaches(g, s, n)
  }

  ghost predicate NextTo(g: Graph, seeds: set<Name>, n: Name) {
    exists s :: s in seeds && n in Succ(g, s)
  }

  function Targets(g: Graph): set<Name> {
    set k, n | k in g && n in g[k] :: n
  }

  /** What a node owes once it has left the frontier. */
  ghost predicate Settled(g: Graph, seeds: set<Name>, closure: set<Name>, depth: Option<int>, u: Name) {
    (depth.None? || (u in seeds && depth.value >= 1)) ==> Succ(g, u) <= seeds + closure
  }

  ghost predicate Waiting(frontier: seq<(Name, nat)>, u: Name) {
    exists i :: 0 <= i < |frontier| && frontier[i].0 == u
  }

  /** Loop invariant of the LIFO walk. */
  ghost predicate Walked(g: Graph, seeds: set<Name>, depth: Option<int>, closure: set<Name>,
                         frontier: seq<(Name, nat)>) {
    && closure !! seeds && closure <= Targets(g)
    && (forall i | 0 <= i < |frontier| :: FrontierEntry(g, seeds, depth, closure, frontier[i]))
    && (forall n | n in closure :: FoundWithin(g, seeds, depth, n))
    && (forall u | u in seeds + closure :: Waiting(frontier, u) || Settled(g, seeds, closure, depth, u))
  }

  ghost predicate FrontierEntry(g: Graph, seeds: set<Name>, depth: Option<int>, closure: set<Name>, e: (Name, nat)) {
    && InHops(g, seeds, e.0, e.1)
    && e.0 in seeds + closure && (e.1 == 0 <==> e.0 in seeds)
  }

  /** `n` lies within the allowed number of hops. */
  ghost predicate FoundWithin(g: Graph, seeds: set<Name>, depth: Option<int>, n: Name) {
    exists hops: nat :: InHops(g, seeds, n, hops) && hops >= 1 && (depth.Some? ==> hops <= depth.value)
  }

  lemma OneMoreHop(g: Graph, seeds: set<Name>, u: Name, hops: nat, n: Name)
    requires InHops(g, seeds, u, hops) && n in Succ(g, u)
    ensures InHops(g, seeds, n, hops + 1)
  {
    var p :| IsPath(g, p) && p[0] in seeds && p[|p| - 1] == u && |p| == hops + 1;
    assert IsPath(g, [u, n][1..]);
    PathConcat(g, p, [u, n]);
    assert IsPath(g, p + [u, n][1..]);
  }

  /** One entry of the frontier: its dependents not seen before join the closure and the frontier. */
  method Expand(g: Graph, seeds: set<Name>, current: Name, hops: nat, ghost depth: Option<int>, closure0: set<Name>,
                frontier0: seq<(Name, nat)>)
    returns (closure: set<Name>, frontier: seq<(Name, nat)>)
    requires depth.Some? ==> hops < depth.value
    requires Walked(g, seeds, depth, closure0, frontier0 + [(current, hops)])
    ensures Walked(g, seeds, depth, closure, frontier)
    ensures closure0 < closure || (closure == closure0 && frontier == frontier0)
  {
    hide Walked, InHops, FoundWithin;
    closure, frontier := closure0, frontier0;
    var todo := Succ(g, current);
    ExpandStart(g, seeds, depth, closure0, frontier0, current, hops);
    while todo != {}
      invariant todo <= Succ(g, current)
      invariant Walking(g, seeds, depth, closure, frontier, current, hops)
      invariant Succ(g, current) - todo <= seeds + closure
      invariant closure0 < closure || (closure == closure0 && frontier == frontier0)
      decreases todo
    {
      var dependent :| dependent in todo;
      if dependent !in closure && dependent !in seeds {
        ExpandOne(g, seeds, depth, closure, frontier, current, hops, dependent);
        closure := closure + {dependent};
        frontier := frontier + [(dependent, hops + 1)];
      }
      todo := todo - {dependent};
    }
    ExpandEnd(g, seeds, depth, closure, frontier, current, hops);
  }

  /** `Walked`, while the entry just popped is still being expanded. */
  ghost predicate Walking(g: Graph, seeds: set<Name>, depth: Option<int>, closure: set<Name>,
                          frontier: seq<(Name, nat)>, current: Name, hops: nat) {
    && closure !! seeds && closure <= Targets(g)
    && (forall i | 0 <= i < |frontier| :: FrontierEntry(g, seeds, depth, closure, frontier[i]))
    && FrontierEntry(g, seeds, depth, closure, (current, hops))
    && (forall n | n in closure :: FoundWithin(g, seeds, depth, n))
    && (forall u | u in seeds + closure :: u == current || Waiting(frontier, u) || Settled(g, seeds, closure, depth, u))
  }

  lemma ExpandStart(g: Graph, seeds: set<Name>, depth: Option<int>, closure: set<Name>, frontier: seq<(Name, nat)>,
                    current: Name, hops: nat)
    requires Walked(g, seeds, depth, closure, frontier + [(current, hops)])
    ensures Walking(g, seeds, depth, closure, frontier, current, hops)
  {
    hide InHops, FoundWithin;
    var f := frontier + [(current, hops)];
    assert forall i | 0 <= i < |frontier| :: f[i] == frontier[i];
    assert f[|frontier|] == (current, hops);
    forall u | Waiting(f, u) ensures u == current || Waiting(frontier, u) {
      var i :| 0 <= i < |f| && f[i].0 == u;
      if i < |frontier| { assert frontier[i].0 == u; }
    }
  }

  lemma ExpandOne(g: Graph, seeds: set<Name>, depth: Option<int>, closure: set<Name>, frontier: seq<(Name, nat)>,
                  current: Name, hops: nat, n: Name)
    requires Walking(g, seeds, depth, closure, frontier, current, hops)
    requires n in Succ(g, current) && n !in closure && n !in seeds && (depth.Some? ==> hops < depth.value)
    ensures Walking(g, seeds, depth, closure + {n}, frontier + [(n, hops + 1)], current, hops)
  {
    hide InHops;
    var c, f := closure + {n}, frontier + [(n, hops + 1)];
    OneMoreHop(g, seeds, current, hops, n);
    assert FoundWithin(g, seeds, depth, n);
    assert f[|frontier|].0 == n;
    forall u | u in seeds + c ensures u == current || Waiting(f, u) || Settled(g, seeds, c, depth, u) {
      if u == n { assert Waiting(f, n); }
      else if Waiting(frontier, u) {
        var i :| 0 <= i < |frontier| && frontier[i].0 == u;
        assert f[i].0 == u;
      }
    }
  }

  lemma ExpandEnd(g: Graph, seeds: set<Name>, depth: Option<int>, closure: set<Name>, frontier: seq<(Name, nat)>,
                  current: Name, hops: nat)
    requires Walking(g, seeds, depth, closure, frontier, current, hops) && Succ(g, current) <= seeds + closure
    ensures Walked(g, seeds, depth, closure, frontier)
  {
  }

  /**
   `reverse_closure`: exact when unbounded and at one hop, the two depths the
   planner uses; at any depth it only holds what lies within that many hops.
   */
  method ReverseClosure(seeds: set<Name>, dependents: Graph, depth: Option<int>) returns (closure: set<Name>)
    ensures closure !! seeds
    ensures depth.None? ==> forall n :: n in closure <==> n !in seeds && ReachedFrom(dependents, seeds, n)
    ensures depth == Some(1) ==> forall n :: n in closure <==> n !in seeds && NextTo(dependents, seeds, n)
    ensures forall n | n in closure :: FoundWithin(dependents, seeds, depth, n)
    ensures depth.Some? && depth.value >= 1 ==> forall n | n !in seeds && NextTo(dependents, seeds, n) :: n in closure
  {
    hide Walked;
    closure := {};
    var frontier: seq<(Name, nat)> := [];
    var todo := seeds;
    while todo != {}
      invariant todo <= seeds
      invariant forall i | 0 <= i < |frontier| :: frontier[i].1 == 0 && frontier[i].0 in seeds
      invariant forall s | s in seeds - todo :: Waiting(frontier, s)
      decreases todo
    {
      var s :| s in todo;
      WaitingMore(frontier, (s, 0));
      frontier := frontier + [(s, 0)];
      todo := todo - {s};
    }
    WalkBegins(dependents, seeds, depth, frontier);
    while frontier != []
      invariant Walked(dependents, seeds, depth, closure, frontier)
      decreases Targets(dependents) - closure, |frontier|
    {
      var (current, hops) := frontier[|frontier| - 1];
      var rest := frontier[..|frontier| - 1];
      assert frontier == rest + [(current, hops)];
      WalkBounded(dependents, seeds, depth, closure, frontier);
      if depth.Some? && hops >= depth.value {
        WalkSkip(dependents, seeds, depth, closure, rest, current, hops);
        frontier := rest;
      } else {
        closure, frontier := Expand(dependents, seeds, current, hops, depth, closure, rest);
      }
      WalkBounded(dependents, seeds, depth, closure, frontier);
    }
    WalkDone(dependents, seeds, depth, closure);
  }

  lemma WaitingMore(frontier: seq<(Name, nat)>, e: (Name, nat))
    ensures forall u :: Waiting(frontier + [e], u) <==> Waiting(frontier, u) || u == e.0
  {
    var f := frontier + [e];
    assert f[|frontier|].0 == e.0;
    forall u | Waiting(frontier, u) ensures Waiting(f, u) {
      var i :| 0 <= i < |frontier| && frontier[i].0 == u;
      assert f[i].0 == u;
    }
  }

  lemma WalkBounded(g: Graph, seeds: set<Name>, depth: Option<int>, closure: set<Name>, frontier: seq<(Name, nat)>)
    requires Walked(g, seeds, depth, closure, frontier)
    ensures closure <= Targets(g)
  {
  }

  lemma WalkBegins(g: Graph, seeds: set<Name>, depth: Option<int>, frontier: seq<(Name, nat)>)
    requires forall i | 0 <= i < |frontier| :: frontier[i].1 == 0 && frontier[i].0 in seeds
    requires forall s | s in seeds :: Waiting(frontier, s)
    ensures Walked(g, seeds, depth, {}, frontier)
  {
    forall i | 0 <= i < |frontier| ensures FrontierEntry(g, seeds, depth, {}, frontier[i]) {
      assert IsPath(g, [frontier[i].0]);
    }
  }

  lemma WalkSkip(g: Graph, seeds: set<Name>, depth: Option<int>, closure: set<Name>, frontier: seq<(Name, nat)>,
                 current: Name, hops: nat)
    requires Walked(g, seeds, depth, closure, frontier + [(current, hops)]) && depth.Some? && hops >= depth.value
    ensures Walked(g, seeds, depth, closure, frontier)
  {
    ExpandStart(g, seeds, depth, closure, frontier, current, hops);
  }

  lemma WalkDone(g: Graph, seeds: set<Name>, depth: Option<int>, closure: set<Name>)
    requires Walked(g, seeds, depth, closure, [])
    ensures closure !! seeds && forall n | n in closure :: FoundWithin(g, seeds, depth, n)
    ensures depth.Some? && depth.value >= 1 ==> forall n | n !in seeds && NextTo(g, seeds, n) :: n in closure
    ensures depth.None? ==> forall n :: n in closure <==> n !in seeds && ReachedFrom(g, seeds, n)
    ensures depth == Some(1) ==> forall n :: n in closure <==> n !in seeds && NextTo(g, seeds, n)
  {
    hide FoundWithin, Reaches;
    forall u | u in seeds + closure ensures Settled(g, seeds, closure, depth, u) { assert !Waiting([], u); }
    forall n | depth.None? && n !in seeds && ReachedFrom(g, seeds, n) ensures n in closure {
      var s :| s in seeds && Reaches(g, s, n);
      assert Closed(g, seeds + closure);
      ReachesStaysInside(g, s, n, seeds + closure);
    }
    forall n | depth.Some? && depth.value >= 1 && n !in seeds && NextTo(g, seeds, n) ensures n in closure {
      var s :| s in seeds && n in Succ(g, s);
      assert Settled(g, seeds, closure, depth, s);
    }
    forall n | n in closure ensures ReachedFrom(g, seeds, n) && (depth == Some(1) ==> NextTo(g, seeds, n)) {
      FoundIsReached(g, seeds, depth, n);
    }
  }

  lemma FoundIsReached(g: Graph, seeds: set<Name>, depth: Option<int>, n: Name)
    requires FoundWithin(g, seeds, depth, n)
    ensures ReachedFrom(g, seeds, n) && (depth == Some(1) ==> NextTo(g, seeds, n))
  {
    var hops: nat :| InHops(g, seeds, n, hops) && hops >= 1 && (depth.Some? ==> hops <= depth.value);
    var p :| IsPath(g, p) && p[0] in seeds && p[|p| - 1] == n && |p| == hops + 1;
    assert Joins(g, p, p[0], n);
    assert Reaches(g, p[0], n);
  }

  // ---------------------------------------------------------------------- plan

  /** An inventory entry; a missing or null `stage` is 0. */
  datatype Entry = Entry(name: Name, stage: int)

  function NamesOf(entries: seq<Entry>): set<Name> {
    set e | e in entries :: e.name
  }

  function WithNames(config: seq<Entry>, names: set<Name>): seq<Entry> {
    if config == [] then []
    else
      var k := |config| - 1;
      WithNames(config[..k], names) + if config[k].name in names then [config[k]] else []
  }

  /** What `plan` is told about one run. `matching` are the recipes `is_published` finds published as they are. */
  datatype Query = Query(
    published: set<Name>,
    matching: set<Name>,
    changed: set<Name>,
    stale: set<Name>,
    full: bool,
    factoryRepo: bool,
    trustState: bool)

  /** The entry is selected for its own sake. */
  predicate Selected(q: Query, n: Name) {
    || q.full || n in q.changed || n in q.stale || !(q.factoryRepo && q.published != {})
    || (!q.trustState && n !in q.matching)
  }

  function SelectedNames(config: seq<Entry>, q: Query): set<Name> {
    set n | n in NamesOf(config) && Selected(q, n)
  }

  method SelectEntries(config: seq<Entry>, q: Query) returns (build: seq<Entry>)
    ensures build == WithNames(config, SelectedNames(config, q))
  {
    build := [];
    ghost var chosen := SelectedNames(config, q);
    for i := 0 to |config|
      invariant build == WithNames(config[..i], chosen)
    {
      assert config[i] in config;
      assert config[..i + 1][..i] == config[..i];
      if Selected(q, config[i].name) {
        build := build + [config[i]];
      }
    }
    assert config[..|config|] == config;
  }

  method NamedEntries(config: seq<Entry>, building: set<Name>, dragged: set<Name>) returns (build: seq<Entry>)
    ensures build == WithNames(config, building + dragged)
  {
    build := [];
    for i := 0 to |config|
      invariant build == WithNames(config[..i], building + dragged)
    {
      assert config[..i + 1][..i] == config[..i];
      if config[i].name in building || config[i].name in dragged {
        build := build + [config[i]];
      }
    }
    assert config[..|config|] == config;
  }

  /** The inventory packages selected, and those that depend on them at any remove. */
  ghost function Affected(config: seq<Entry>, q: Query, dependents: Graph): set<Name> {
    set n | n in NamesOf(config) && (Selected(q, n) || ReachedFrom(dependents, SelectedNames(config, q), n))
  }

  /** The inventory packages selected, and those that depend on one of them directly. */
  ghost function Adjacent(config: seq<Entry>, q: Query, dependents: Graph): set<Name> {
    set n | n in NamesOf(config) && (Selected(q, n) || NextTo(dependents, SelectedNames(config, q), n))
  }

  /** Who is planned, read off the query: by full, changed, stale, unreadable or unmatched, or dragged by such a one. */
  lemma PlanMeaning(config: seq<Entry>, q: Query, dependents: Graph)
    ensures forall names | names == Affected(config, q, dependents) || names == Adjacent(config, q, dependents) ::
      && NamesOf(WithNames(config, names)) == names
      && (forall n | n in NamesOf(config) ::
            || q.full || n in q.changed || n in q.stale || !q.factoryRepo || q.published == {}
            || (!q.trustState && n !in q.matching)
            ==> n in names)
      && (!q.full && q.factoryRepo && q.published != {} ==>
            forall n | n in names && n !in q.changed + q.stale && (q.trustState || n in q.matching) ::
              exists s :: && s in names && Reaches(dependents, s, n)
                          && (s in q.changed || s in q.stale || (!q.trustState && s !in q.matching)))
  {
    WithNamesMembers(config, Affected(config, q, dependents));
    WithNamesMembers(config, Adjacent(config, q, dependents));
    hide Reaches;
    forall s, n | n in Succ(dependents, s) ensures Reaches(dependents, s, n) { ReachesEdge(dependents, s, n); }
  }

  /** `plan`: the selected entries and the ones they drag along, in inventory order. */
  method Plan(config: seq<Entry>, q: Query, dependents: Graph, depth: Option<int>) returns (build: seq<Entry>)
    ensures depth.None? ==> build == WithNames(config, Affected(config, q, dependents))
    ensures depth == Some(1) ==> build == WithNames(config, Adjacent(config, q, dependents))
    ensures depth.None? || depth == Some(1) ==> forall n | n in NamesOf(config) ::
              || q.full || n in q.changed || n in q.stale || !q.factoryRepo || q.published == {}
              || (!q.trustState && n !in q.matching)
              ==> n in NamesOf(build)
    ensures (depth.None? || depth == Some(1)) && !q.full && q.factoryRepo && q.published != {} ==>
              forall n | n in NamesOf(build) && n !in q.changed + q.stale && (q.trustState || n in q.matching) ::
                exists s :: && s in NamesOf(build) && Reaches(dependents, s, n)
                            && (s in q.changed || s in q.stale || (!q.trustState && s !in q.matching))
  {
    PlanMeaning(config, q, dependents);
    hide ReachedFrom, NextTo, FoundWithin, Selected, WithNames;
    build := SelectEntries(config, q);
    ghost var chosen := SelectedNames(config, q);
    WithNamesMembers(config, chosen);
    if dependents != map[] {
      var building := NamesOf(build);
      var dragged := ReverseClosure(building, dependents, depth);
      build := NamedEntries(config, building, dragged);
      if depth.None? { SameNames(config, chosen + dragged, Affected(config, q, dependents)); }
      if depth == Some(1) { SameNames(config, chosen + dragged, Adjacent(config, q, dependents)); }
    } else {
      NothingDragged(chosen);
      SameNames(config, chosen, Affected(config, q, dependents));
      SameNames(config, chosen, Adjacent(config, q, dependents));
    }
  }

  lemma {:induction false} SameNames(config: seq<Entry>, a: set<Name>, b: set<Name>)
    requires forall n | n in NamesOf(config) :: n in a <==> n in b
    ensures WithNames(config, a) == WithNames(config, b)
    decreases |config|
  {
    if config != [] {
      var k := |config| - 1;
      assert config[k].name in NamesOf(config);
      forall n | n in NamesOf(config[..k]) ensures n in NamesOf(config) {
        var e :| e in config[..k] && e.name == n;
        assert e in config;
      }
      SameNames(config[..k], a, b);
    }
  }

  lemma {:induction false} WithNamesMembers(config: seq<Entry>, names: set<Name>)
    ensures forall e :: e in WithNames(config, names) <==> e in config && e.name in names
    ensures names <= NamesOf(config) ==> NamesOf(WithNames(config, names)) == names
    decreases |config|
  {
    if config != [] {
      var k := |config| - 1;
      WithNamesMembers(config[..k], names);
      assert config == config[..k] + [config[k]];
    }
    if names <= NamesOf(config) {
      forall n | n in names ensures n in NamesOf(WithNames(config, names)) {
        var e :| e in config && e.name == n;
        assert e in WithNames(config, names);
      }
    }
  }

  /** Without edges nothing is dragged along. */
  lemma NothingDragged(seeds: set<Name>)
    ensures forall n :: !NextTo(map[], seeds, n)
    ensures forall n :: ReachedFrom(map[], seeds, n) ==> n in seeds
  {
    forall n | ReachedFrom(map[], seeds, n) ensures n in seeds {
      var s :| s in seeds && Reaches(map[], s, n);
      ReachesStaysInside(map[], s, n, {s});
    }
  }

  /** Unbounded, the plan holds every selected package, and no inventory package outside it depends on one inside. */
  lemma NothingLeftBehind(config: seq<Entry>, q: Query, dependents: Graph)
    ensures SelectedNames(config, q) <= NamesOf(WithNames(config, Affected(config, q, dependents)))
    ensures forall provider, consumer
              | provider in NamesOf(WithNames(config, Affected(config, q, dependents)))
                  && consumer in Succ(dependents, provider)
              :: consumer in NamesOf(config) ==> consumer in NamesOf(WithNames(config, Affected(config, q, dependents)))
  {
    hide Selected, Reaches;
    var chosen := SelectedNames(config, q);
    WithNamesMembers(config, Affected(config, q, dependents));
    forall provider, consumer | provider in Affected(config, q, dependents) && consumer in Succ(dependents, provider)
      ensures consumer in NamesOf(config) ==> consumer in Affected(config, q, dependents)
    {
      if provider in chosen { ReachesSelf(dependents, provider); }
      var s :| s in chosen && Reaches(dependents, s, provider);
      ReachesThenEdge(dependents, s, provider, consumer);
    }
  }

  // ----------------------------------------------------------------- cacheable

  /** `cacheable`: the selected packages a stage job may restore from the package cache. */
  function Cacheable(build: seq<Entry>, changed: set<Name>, stale: set<Name>): (names: seq<Name>)
    ensures Elements(names) == NamesOf(build) - (changed + stale)
  {
    if build == [] then []
    else
      var k := |build| - 1;
      var rest, own := Cacheable(build[..k], changed, stale),
          if build[k].name in changed + stale then [] else [build[k].name];
      NamesOfNext(build);
      assert Elements(rest + own) == Elements(rest) + Elements(own);
      rest + own
  }

  lemma NamesOfNext(build: seq<Entry>)
    requires build != []
    ensures var k := |build| - 1; NamesOf(build) == NamesOf(build[..k]) + {build[k].name}
  {
    var k := |build| - 1;
    assert build == build[..k] + [build[k]];
    assert forall e :: e in build <==> e in build[..k] || e == build[k];
  }
}
