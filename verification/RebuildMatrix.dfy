/**
 `main` of tools/rebuild_matrix.py: one run prepared, from the published image and
 the inventory to the job matrices and the names it vouches for.
 */
module RebuildMatrix {
  import opened Common
  import opened Reachability
  import opened RunProtocol
  import B = BuildGraph
  import C = Components
  import P = PublishGate
  import R = RebuildPlan
  import S = StageOutputs
  import W = Waves

  /** `request` is the request with the dependents the plan drags along; `waves` the solved order, if any. */
  datatype Outcome =
    | Prepared(request: Request, build: seq<R.Entry>, waves: Option<map<Name, int>>, outputs: S.Outputs,
               cacheable: seq<Name>, held: set<Name>, trusted: set<Name>)
    | TooDeep(late: set<Name>)
    | Cyclic(trail: seq<Name>)

  /** `{entry["name"]: entry.get("stage") or 0 for entry in config["packages"]}` */
  function StagesOf(config: seq<R.Entry>): map<Name, int> {
    if config == [] then map[]
    else var k := |config| - 1; StagesOf(config[..k])[config[k].name := config[k].stage]
  }

  /** What `main` promises of a prepared run, edges aside. */
  ghost predicate Accounted(w: World, q: Request, o: Outcome)
    requires o.Prepared?
  {
    && o.request == q.(dragged := o.request.dragged)
    && R.NamesOf(o.build) == Building(w, o.request)
    && o.held == Held(w, o.request) && o.trusted == Trusted(w, o.request)
    && o.outputs.buildList == S.AllNames(o.build)
    && Elements(o.cacheable) == Cacheable(w, o.request)
  }

  /** The entry of its name that counts: the last one. */
  ghost predicate LastOf(config: seq<R.Entry>, e: R.Entry) {
    exists i :: 0 <= i < |config| && config[i] == e && forall j | i < j < |config| :: config[j].name != e.name
  }

  /**
   Every BuildRequires edge between two packages of no common cycle goes to a strictly earlier wave, and so does
   one inside a cycle whose provider the config stages earlier.
   */
  ghost predicate InOrder(config: seq<R.Entry>, edges: Graph, build: seq<R.Entry>, waves: Option<map<Name, int>>) {
    forall consumer, provider
      | && consumer in build && provider in build && provider.name in Succ(edges, consumer.name)
        && (|| !Mutual(C.Induced(R.NamesOf(build), edges), consumer.name, provider.name)
            || (LastOf(config, consumer) && LastOf(config, provider) && provider.stage < consumer.stage)) ::
      S.WaveOf(provider, waves) < S.WaveOf(consumer, waves)
  }

  /**
   `n` changed since the published build: against the label, its recorded digest is not its digest now, unless that
   very digest failed and is not retried, or it failed and is; without a label, by the diff.
   */
  ghost predicate Edited(w: World, q: Request, n: Name) {
    if !q.factoryRepo || w.recorded.None? then n in q.diff
    else
      var inputs, failed := w.recorded.value.inputs, w.recorded.value.failed;
      && n in w.digests && n in R.NamesOf(q.config)
      && (|| (q.retryFailed && n in failed)
          || ((n !in inputs || inputs[n] != w.digests[n])
              && (q.retryFailed || n !in failed || failed[n] != w.digests[n])))
  }

  /** `n` is built for its own sake. */
  ghost predicate Due(w: World, q: Request, n: Name) {
    || q.full || !q.factoryRepo || !q.readable || w.repo == map[]
    || Edited(w, q, n) || n in q.stale
    || (w.recorded.None? && n !in q.matching)
  }

  /** `n` BuildRequires something built for its own sake, or without a graph depends on it at any remove. */
  ghost predicate DraggedBy(w: World, q: Request, edges: Option<Graph>, runtime: Graph, n: Name) {
    !q.full && exists s :: && s in R.NamesOf(q.config) && Due(w, q, s)
                           && if edges.Some? then s in Succ(edges.value, n) else Reaches(runtime, s, n)
  }

  /** The inventory packages built for their own sake or dragged along, in inventory order. */
  ghost predicate RightPlan(w: World, q: Request, edges: Option<Graph>, runtime: Graph, build: seq<R.Entry>) {
    && build == R.WithNames(q.config, R.NamesOf(build))
    && R.NamesOf(build) <= R.NamesOf(q.config)
    && forall n | n in R.NamesOf(q.config) ::
         n in R.NamesOf(build) <==> Due(w, q, n) || DraggedBy(w, q, edges, runtime, n)
  }

  lemma SelectedIsDue(w: World, q: Request, n: Name)
    requires n in R.NamesOf(q.config)
    ensures n in ChangedNames(w, q) <==> Edited(w, q, n)
    ensures R.Selected(QueryOf(w, q), n) <==> Due(w, q, n)
    ensures n in R.SelectedNames(q.config, QueryOf(w, q)) <==> Due(w, q, n)
  {
    EditedIsChanged(w, q, n);
    assert PublishedSources(w.repo) == {} <==> w.repo == map[] by {
      if w.repo != map[] { var f :| f in w.repo; assert w.repo[f].source in PublishedSources(w.repo); }
    }
    hide ChangedNames, Edited, PublishedSources;
  }

  lemma EditedIsChanged(w: World, q: Request, n: Name)
    requires n in R.NamesOf(q.config)
    ensures n in ChangedNames(w, q) <==> Edited(w, q, n)
  {
  }

  /** A prepared run: the right packages, nothing lost, and waves that respect the edges. */
  ghost predicate WellPrepared(w: World, q: Request, edges: Option<Graph>, runtime: Graph, o: Outcome) {
    o.Prepared? ==>
      && RightPlan(w, q, edges, runtime, o.build)
      && Accounted(w, q, o)
      && S.Overflow(o.build, o.waves) == {}
      && S.IsComputed(o.build, o.waves, o.outputs)
      && (edges.Some? ==> InOrder(q.config, edges.value, o.build, o.waves))
      && (forall e | e in o.build :: S.WaveOf(e, o.waves) >= 0)
  }

  /** What solving the planned packages comes to: their waves, or a trail that closes a cycle; none without a graph. */
  ghost predicate Solves(config: seq<R.Entry>, build: seq<R.Entry>, edges: Option<Graph>,
                         waves: Option<map<Name, int>>, trail: Option<seq<Name>>) {
    match edges
    case None => waves.None? && trail.None?
    case Some(g) =>
      exists kept, wave: map<Name, nat> ::
        && B.IsBroken(R.NamesOf(build), C.Induced(R.NamesOf(build), g), StagesOf(config), kept)
        && (if trail.Some? then W.ClosesCycle(kept, trail.value)
            else waves == Some(wave) && wave.Keys == R.NamesOf(build) && W.Solved(kept, wave))
  }

  /** No planned package outside every cycle BuildRequires itself. */
  ghost predicate Solvable(build: seq<R.Entry>, edges: Option<Graph>) {
    edges.Some? ==> B.NoLoneSelfEdge(C.Induced(R.NamesOf(build), edges.value))
  }

  /** The groups warned about: planned packages of one cycle that share a config stage. */
  ghost predicate Warned(config: seq<R.Entry>, build: seq<R.Entry>, edges: Option<Graph>, unordered: seq<set<Name>>) {
    forall m :: m in unordered <==>
      edges.Some? && B.IsUnordered(C.Induced(R.NamesOf(build), edges.value), StagesOf(config), m)
  }

  /** The waves `main` asks for: none without a graph, the cycle if solving runs into one. */
  method SolveWaves(config: seq<R.Entry>, build: seq<R.Entry>, edges: Option<Graph>)
    returns (waves: Option<map<Name, int>>, trail: Option<seq<Name>>, unordered: seq<set<Name>>)
    requires forall e | e in build :: e in config && e.stage >= 0
    ensures Solves(config, build, edges, waves, trail)
    ensures trail.None? <==> Solvable(build, edges)
    ensures Warned(config, build, edges, unordered)
    ensures trail.None? ==> forall e | e in build :: S.WaveOf(e, waves) >= 0
    ensures trail.None? && edges.Some? ==> InOrder(config, edges.value, build, waves)
  {
    hide B.NoLoneSelfEdge, B.IsBroken, B.IsUnordered, W.Solved, W.ClosesCycle, Mutual, S.WaveOf;
    waves, trail, unordered := None, None, [];
    if edges.Some? {
      var building := R.NamesOf(build);
      var solved;
      ghost var kept;
      solved, unordered, kept := W.Waves(building, edges.value, StagesOf(config), unordered);
      if solved.Loop? {
        return None, Some(solved.trail), unordered;
      }
      waves := Some(solved.value);
      assert forall e | e in build :: e.name in building;
      forall consumer, provider
        | && consumer in build && provider in build && provider.name in Succ(edges.value, consumer.name)
          && (|| !Mutual(C.Induced(building, edges.value), consumer.name, provider.name)
              || (LastOf(config, consumer) && LastOf(config, provider) && provider.stage < consumer.stage))
        ensures S.WaveOf(provider, waves) < S.WaveOf(consumer, waves)
      {
        SolvedOrder(config, building, edges.value, kept, solved.value, consumer, provider);
      }
    }
    forall e | e in build ensures S.WaveOf(e, waves) >= 0 { NeverNegative(waves, e); }
  }

  /** How a run of `planned` packages ends: on a cycle, on a wave without a job, or prepared. */
  ghost predicate EndsRight(config: seq<R.Entry>, planned: seq<R.Entry>, edges: Option<Graph>,
                            waves: Option<map<Name, int>>, o: Outcome) {
    match o
    case Cyclic(trail) => !Solvable(planned, edges) && Solves(config, planned, edges, waves, Some(trail))
    case TooDeep(late) =>
      && Solvable(planned, edges) && Solves(config, planned, edges, waves, None)
      && late == S.Overflow(planned, waves) != {}
    case Prepared(_, build, solved, _, _, _, _) =>
      && Solvable(planned, edges) && Solves(config, planned, edges, waves, None)
      && S.Overflow(planned, waves) == {} && build == planned && solved == waves
  }

  /**
   `main`: select, hold, solve the waves, refuse what is too deep, and lay out the jobs. `runtime` is the
   fallback when there is no graph. Config stages are never negative: the inventory refuses them.
   */
  method Prepare(w: World, q: Request, edges: Option<Graph>, runtime: Graph)
    returns (o: Outcome, unordered: seq<set<Name>>, ghost planned: seq<R.Entry>, ghost waves: Option<map<Name, int>>)
    requires forall e | e in q.config :: e.stage >= 0
    ensures RightPlan(w, q, edges, runtime, planned)
    ensures EndsRight(q.config, planned, edges, waves, o)
    ensures Warned(q.config, planned, edges, unordered)
    ensures WellPrepared(w, q, edges, runtime, o)
  {
    hide R.Selected, R.Affected, R.Adjacent, RightPlan, InOrder, S.IsComputed, S.Overflow, S.WaveOf, Held, QueryOf,
        Solves, Solvable, Warned, Accounted, ChangedNames;
    var dependents: Graph := map[];
    if !q.full {
      if edges.Some? { dependents := B.Dependents(edges.value); } else { dependents := runtime; }
    }
    var build := R.Plan(q.config, QueryOf(w, q), dependents, if edges.Some? then Some(1) else None);
    PlanCovers(q.config, QueryOf(w, q), dependents, build, edges.Some?);
    PlanIsRight(w, q, edges, runtime, dependents, build);
    var solved, trail;
    solved, trail, unordered := SolveWaves(q.config, build, edges);
    planned, waves := build, solved;
    if trail.Some? {
      return Cyclic(trail.value), unordered, planned, waves;
    }
    var late := S.Overflow(build, solved);
    if late != {} {
      return TooDeep(late), unordered, planned, waves;
    }
    var outputs := S.Compute(build, solved);
    ComputedListed(build, solved, outputs);
    var building, held := R.NamesOf(build), Held(w, q);
    var cacheable := R.Cacheable(build, ChangedNames(w, q), if q.full then {} else q.stale);
    o := Prepared(q.(dragged := building), build, solved, outputs, cacheable, held,
                  R.NamesOf(q.config) - building - held);
    AllAccounted(w, q, o);
  }

  lemma AllAccounted(w: World, q: Request, o: Outcome)
    requires o.Prepared? && o.request == q.(dragged := R.NamesOf(o.build))
    requires R.SelectedNames(q.config, QueryOf(w, q)) <= R.NamesOf(o.build)
    requires o.held == Held(w, q) && o.trusted == R.NamesOf(q.config) - R.NamesOf(o.build) - o.held
    requires o.outputs.buildList == S.AllNames(o.build)
    requires o.cacheable == R.Cacheable(o.build, ChangedNames(w, q), if q.full then {} else q.stale)
    ensures Accounted(w, q, o)
  {
    hide QueryOf, Held, ChangedNames;
    SameQuery(w, q, o.request);
  }

  lemma ComputedListed(build: seq<R.Entry>, waves: Option<map<Name, int>>, out: S.Outputs)
    requires S.IsComputed(build, waves, out)
    ensures out.buildList == S.AllNames(build)
  {
  }

  lemma SameQuery(w: World, q: Request, request: Request)
    requires request == q.(dragged := request.dragged)
    ensures QueryOf(w, request) == QueryOf(w, q) && Held(w, request) == Held(w, q)
    ensures ChangedNames(w, request) == ChangedNames(w, q)
  {
  }

  lemma PlanCovers(config: seq<R.Entry>, q: R.Query, dependents: Graph, build: seq<R.Entry>, direct: bool)
    requires build ==
        R.WithNames(config, if direct then R.Adjacent(config, q, dependents) else R.Affected(config, q, dependents))
    ensures R.SelectedNames(config, q) <= R.NamesOf(build) <= R.NamesOf(config)
    ensures forall e | e in build :: e in config
  {
    hide R.Selected, R.ReachedFrom, R.NextTo;
    R.WithNamesMembers(config, if direct then R.Adjacent(config, q, dependents) else R.Affected(config, q, dependents));
  }

  lemma PlanIsRight(w: World, q: Request, edges: Option<Graph>, runtime: Graph, dependents: Graph, build: seq<R.Entry>)
    requires q.full ==> dependents == map[]
    requires !q.full && edges.Some? ==> forall p, c :: c in Succ(dependents, p) <==> p in Succ(edges.value, c)
    requires !q.full && edges.None? ==> dependents == runtime
    requires build == R.WithNames(q.config, if edges.Some? then R.Adjacent(q.config, QueryOf(w, q), dependents)
                                            else R.Affected(q.config, QueryOf(w, q), dependents))
    ensures RightPlan(w, q, edges, runtime, build)
  {
    var query := QueryOf(w, q);
    var chosen := R.SelectedNames(q.config, query);
    var names := if edges.Some? then R.Adjacent(q.config, query, dependents)
        else R.Affected(q.config, query, dependents);
    R.WithNamesMembers(q.config, names);
    assert R.NamesOf(build) == names;
    forall n | n in R.NamesOf(q.config)
      ensures R.Selected(query, n) <==> Due(w, q, n)
      ensures n in chosen <==> Due(w, q, n)
    {
      SelectedIsDue(w, q, n);
    }
    hide QueryOf, Due, R.Selected, Reaches;
    forall n
      ensures (if edges.Some? then R.NextTo(dependents, chosen, n) else R.ReachedFrom(dependents, chosen, n)) && !q.full
          <==> DraggedBy(w, q, edges, runtime, n)
    {
      assert forall s :: s in chosen <==> s in R.NamesOf(q.config) && Due(w, q, s);
    }
    if q.full { assert forall n :: Due(w, q, n) by { FullIsDue(w, q); } }
  }

  lemma FullIsDue(w: World, q: Request)
    requires q.full
    ensures forall n :: Due(w, q, n)
  {
  }

  lemma NeverNegative(waves: Option<map<Name, int>>, e: R.Entry)
    requires e.stage >= 0
    requires waves.Some? ==> forall n | n in waves.value :: waves.value[n] >= 0
    ensures S.WaveOf(e, waves) >= 0
  {
  }

  lemma SolvedOrder(config: seq<R.Entry>, building: set<Name>, edges: Graph, kept: Graph, wave: map<Name, nat>,
                    consumer: R.Entry, provider: R.Entry)
    requires B.IsBroken(building, C.Induced(building, edges), StagesOf(config), kept) && W.Solved(kept, wave)
        && wave.Keys == building
    requires consumer.name in building && provider.name in building && provider.name in Succ(edges, consumer.name)
    requires || !Mutual(C.Induced(building, edges), consumer.name, provider.name)
             || (LastOf(config, consumer) && LastOf(config, provider) && provider.stage < consumer.stage)
    ensures S.WaveOf(provider, Some(wave)) < S.WaveOf(consumer, Some(wave))
  {
    var g := C.Induced(building, edges);
    W.WavesByConfig(building, g, StagesOf(config), kept, wave, consumer.name, provider.name);
    hide Mutual, B.IsBroken, W.Solved, LastOf, StagesOf;
    if Mutual(g, consumer.name, provider.name) {
      StageOfLast(config, consumer);
      StageOfLast(config, provider);
    }
  }

  /** The stage of a name is its last entry's. */
  lemma {:induction false} StageOfLast(config: seq<R.Entry>, e: R.Entry)
    requires LastOf(config, e)
    ensures e.name in StagesOf(config) && StagesOf(config)[e.name] == e.stage
    decreases |config|
  {
    var k := |config| - 1;
    var i :| 0 <= i < |config| && config[i] == e && forall j | i < j < |config| :: config[j].name != e.name;
    if i < k {
      assert config[..k][i] == e;
      StageOfLast(config[..k], e);
    }
  }

  // ------------------------------------------------------- what a prepared run does

  /** Every package due is built and not trusted; restored is only what is built, did not change and is not stale. */
  lemma DueIsBuilt(w: World, q: Request, edges: Option<Graph>, runtime: Graph, o: Outcome, n: Name)
    requires o.Prepared? && WellPrepared(w, q, edges, runtime, o) && n in R.NamesOf(q.config)
    ensures Due(w, q, n) ==> n in Elements(o.outputs.buildList) && n !in o.trusted
    ensures n in Elements(o.cacheable) <==>
              n in Elements(o.outputs.buildList) && !Edited(w, q, n) && (q.full || n !in q.stale)
  {
    NamesListed(o.build);
    SameQuery(w, q, o.request);
    SelectedIsDue(w, q, n);
    hide Due, Edited, QueryOf, ChangedNames, Held;
    hide S.IsComputed, S.Overflow, S.WaveOf, InOrder, R.Selected;
  }

  /** What the run trusts against a label is recorded at its digest now. */
  lemma TrustedIsCurrent(w: World, q: Request, edges: Option<Graph>, runtime: Graph, o: Outcome, n: Name)
    requires o.Prepared? && WellPrepared(w, q, edges, runtime, o) && n in o.trusted && n in w.digests
    requires q.factoryRepo && w.recorded.Some?
    ensures n in w.recorded.value.inputs && w.recorded.value.inputs[n] == w.digests[n]
  {
    hide S.IsComputed, S.Overflow, S.WaveOf, InOrder, R.Selected, QueryOf;
    assert n in Restricted(w, o.request) && n in R.NamesOf(q.config);
    SameQuery(w, q, o.request);
    SelectedIsDue(w, q, n);
    DueIsBuilt(w, q, edges, runtime, o, n);
    assert !Edited(w, q, n);
    assert n !in ChangedNames(w, o.request) && n !in Held(w, o.request);
  }

  /** `libheif` is stale and `gnome-shell` needs it at run time; both are published as their recipes have them. */
  lemma StaleDrags(w: World, q: Request, libheif: Name, shell: Name, build: seq<R.Entry>)
    requires q.config == [R.Entry(libheif, 0), R.Entry(shell, 0)] && libheif != shell
    requires q.stale == {libheif} && q.matching == {libheif, shell} && q.diff == {} && !q.full
    requires RightPlan(w, q, None, map[libheif := {shell}], build)
    ensures build == q.config
  {
    var runtime := map[libheif := {shell}];
    assert q.config[0] in q.config && q.config[1] in q.config;
    ReachesEdge(runtime, libheif, shell);
    assert Due(w, q, libheif) && DraggedBy(w, q, None, runtime, shell);
    var names := R.NamesOf(build);
    assert names == {libheif, shell};
    var front := q.config[..1];
    assert R.WithNames(front[..0], names) == [] && front == [q.config[0]];
    assert R.WithNames(front, names) == [q.config[0]];
    assert q.config == front + [q.config[1]];
  }

  /** Every name the run looks at is built, held or trusted, and what is trusted is neither. */
  lemma NothingUnaccounted(w: World, q: Request, o: Outcome)
    requires o.Prepared? && Accounted(w, q, o)
    ensures R.NamesOf(q.config) <= Elements(o.outputs.buildList) + o.held + o.trusted
    ensures o.trusted !! Elements(o.outputs.buildList) && o.trusted !! o.held
    ensures Elements(o.cacheable) <= Elements(o.outputs.buildList) && Elements(o.cacheable) !! ChangedNames(w, q)
  {
    hide Building, Held;
    assert Elements(S.AllNames(o.build)) == R.NamesOf(o.build) by { NamesListed(o.build); }
  }

  lemma NamesListed(build: seq<R.Entry>)
    ensures Elements(S.AllNames(build)) == R.NamesOf(build)
  {
    var names := S.AllNames(build);
    forall n ensures n in names <==> n in R.NamesOf(build) {
      if n in names { var i :| 0 <= i < |names| && names[i] == n; assert build[i] in build; }
      if n in R.NamesOf(build) {
        var e :| e in build && e.name == n;
        var i :| 0 <= i < |build| && build[i] == e;
        assert names[i] == n;
      }
    }
  }

  /** The stage jobs build the build list, each entry once, and a through list is what its stages build. */
  lemma JobsBuildThePlan(w: World, q: Request, edges: Option<Graph>, runtime: Graph, o: Outcome, k: nat)
    requires o.Prepared? && WellPrepared(w, q, edges, runtime, o) && k < S.EARLY_PUBLICATIONS
    ensures S.Bag(o.build, o.waves, S.STAGES) == multiset(o.outputs.buildList)
    ensures multiset(o.outputs.through[k]) == S.Bag(o.build, o.waves, k + 1)
  {
    S.StagesPartition(o.build, o.waves);
    S.ThroughIsPrefix(o.build, o.waves, k);
  }

  /** An early publication covers exactly a through list, and takes what the recipes it covers built and lost. */
  ghost predicate Early(o: Outcome, p: Publication, final: Publication, recipe: map<P.Path, Name>, k: nat)
    requires o.Prepared? && k < |o.outputs.through| && recipe.Keys == final.everything.Keys
  {
    && p.covered == Elements(o.outputs.through[k]) && p.pruned == {}
    && p.everything == (map f | f in final.everything && recipe[f] in p.covered :: final.everything[f])
    && p.losers == final.losers * p.covered
  }

  /**
   The early publications of a prepared run leave no trace: with its final publication covering the build
   list, the run ends as that publication alone would end it.
   */
  lemma EarlyWavesLeaveNoTrace(w: World, q: Request, edges: Option<Graph>, runtime: Graph, o: Outcome,
                               early: seq<Publication>, final: Publication, recipe: map<P.Path, Name>)
    requires o.Prepared? && WellPrepared(w, q, edges, runtime, o)
    requires P.MadeBy(final.everything, recipe) && final.covered == Elements(o.outputs.buildList)
    requires forall p | p in early :: exists k: nat ::
        k in o.outputs.earlyWaves && k < |o.outputs.through| && Early(o, p, final, recipe, k)
    requires Publishes(w, final) || AcceptedBy(final) == {}
    ensures Step(w, Run(o.request, early, final)) == Publish(w, o.trusted, final)
  {
    assert recipe.Keys == final.everything.Keys;
    hide Publishes, AcceptedBy, P.MadeBy, Building, Held;
    forall p | p in early ensures Agrees(p, final) {
      var k: nat :| k in o.outputs.earlyWaves && k < |o.outputs.through| && Early(o, p, final, recipe, k);
      ThroughListed(o.build, o.waves, k);
      CoveredWavesAgree(p, final, recipe);
    }
    EarlyPublicationsConfluent(w, o.trusted, early, final);
  }

  lemma ThroughListed(build: seq<R.Entry>, waves: Option<map<Name, int>>, k: nat)
    ensures Elements(S.Between(build, waves, S.Lowest(build, waves), k + 1)) <= Elements(S.AllNames(build))
  {
    NamesListed(build);
    var lo := S.Lowest(build, waves);
    forall n | n in S.Between(build, waves, lo, k + 1) ensures n in R.NamesOf(build) {
      S.BetweenMember(build, waves, lo, k + 1, n);
    }
  }
}
