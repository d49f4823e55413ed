/**
 What the package cache leaves of the label's promise: tools/package_cache_key.py keys a build by less
 than tools/factory_state.py digests, and .github/workflows/build-stage.yml restores it by that key.
 */
module PackageCache {
  import opened Common
  import opened FactoryState
  import opened RunProtocol
  import P = PublishGate
  import R = RebuildPlan
  import L = RunRecords

  /** Every recorded digest is the very one the package's published RPMs were built at. */
  ghost predicate Exact(w: World) {
    Truthful(w, (b: Build) => b.1)
  }

  /** Among the builds that occur, a package's key tells its inputs apart. */
  ghost predicate Tells(key: Build -> Key, occurring: iset<Build>) {
    forall a, b | a in occurring && b in occurring && a.0 == b.0 && !P.IsBootstrapRecipe(a.0) && key(a) == key(b) ::
      a == b
  }

  // ---------------------------------------------------------------- what occurs

  ghost predicate AllIn(digests: map<Name, Digest>, occurring: iset<Build>) {
    forall n | n in digests :: (n, digests[n]) in occurring
  }

  ghost predicate BuiltIn(repo: P.Files, occurring: iset<Build>) {
    forall f | f in repo :: (repo[f].source, repo[f].builtAt) in occurring
  }

  ghost predicate WorldIn(w: World, occurring: iset<Build>) {
    && AllIn(w.digests, occurring) && BuiltIn(w.repo, occurring)
    && (w.recorded.Some? ==> AllIn(w.recorded.value.inputs, occurring))
  }

  ghost predicate EventIn(e: Event, occurring: iset<Build>) {
    && (e.Edit? ==> AllIn(e.digests, occurring))
    && (e.Push? ==> forall b | b in e.builds :: b in occurring)
  }

  /** What is there at the start, the edits and the pushes of others bring no other builds. */
  ghost predicate Within(w: World, cache: set<Build>, es: seq<Event>, occurring: iset<Build>) {
    && WorldIn(w, occurring) && (forall b | b in cache :: b in occurring)
    && (forall e | e in es :: EventIn(e, occurring))
  }

  ghost predicate CarriesIn(p: Publication, occurring: iset<Build>) {
    forall f, b | Carries(p, f, b) :: b in occurring
  }

  lemma PublishStaysIn(w: World, trusted: set<Name>, p: Publication, occurring: iset<Build>)
    requires WorldIn(w, occurring) && CarriesIn(p, occurring)
    ensures WorldIn(Publish(w, trusted, p), occurring)
  {
    hide MayPublish, AcceptedBy, ReplacedBy, FailedBy, P.PrunedAway, P.IsBootstrap;
    if Publishes(w, p) {
      var next := Publish(w, trusted, p);
      forall f | f in next.repo ensures (next.repo[f].source, next.repo[f].builtAt) in occurring {
        if f in P.Publishable(p.everything) && next.repo[f] == p.everything[f] {
          assert Carries(p, f, (next.repo[f].source, next.repo[f].builtAt));
        }
      }
    }
  }

  lemma {:induction false} PublishAllStaysIn(w: World, trusted: set<Name>, ps: seq<Publication>, occurring: iset<Build>)
    requires WorldIn(w, occurring) && forall p | p in ps :: CarriesIn(p, occurring)
    ensures WorldIn(PublishAll(w, trusted, ps), occurring)
    decreases |ps|
  {
    hide WorldIn, CarriesIn, Publish;
    if ps != [] {
      PublishStaysIn(w, trusted, ps[0], occurring);
      PublishAllStaysIn(Publish(w, trusted, ps[0]), trusted, ps[1..], occurring);
    }
  }

  lemma HonestStaysIn(w: World, q: Request, cache: set<Build>, key: Build -> Key, p: Publication,
                      occurring: iset<Build>)
    requires AllIn(w.digests, occurring) && (forall b | b in cache :: b in occurring) && Honest(w, q, cache, key, p)
    ensures CarriesIn(p, occurring)
  {
    hide Carries, Cacheable;
  }

  lemma StepStaysIn(w: World, cache: set<Build>, key: Build -> Key, e: Event, occurring: iset<Build>)
    requires WorldIn(w, occurring) && (forall b | b in cache :: b in occurring)
    requires EventIn(e, occurring) && Fair(w, cache, key, e)
    ensures WorldIn(Step(w, e), occurring) && forall b | b in Pushed(w, e) :: b in occurring
  {
    hide Carries, Cacheable, Honest, BuiltIn, CarriesIn, Publish;
    match e
    case Edit(_) =>
    case Push(_) =>
    case Run(q, early, final) =>
      forall p | p in early ensures CarriesIn(p, occurring) { HonestStaysIn(w, q, cache, key, p, occurring); }
      HonestStaysIn(w, q, cache, key, final, occurring);
      PublishAllStaysIn(w, Trusted(w, q), early, occurring);
      PublishStaysIn(PublishAll(w, Trusted(w, q), early), Trusted(w, q), final, occurring);
  }

  /** Runs publish and cache no build beyond those that occur. */
  lemma {:induction false} StepsStayIn(w: World, cache: set<Build>, key: Build -> Key, es: seq<Event>,
                                       occurring: iset<Build>)
    requires Within(w, cache, es, occurring) && AllFair(w, cache, key, es)
    ensures WorldIn(Steps(w, es), occurring) && forall b | b in CacheAfter(w, cache, es) :: b in occurring
    decreases |es|
  {
    hide Fair, AllFair, WorldIn, EventIn, Pushed, Step;
    if es != [] {
      var front, e := es[..|es| - 1], es[|es| - 1];
      FairBefore(w, cache, key, es);
      StepsStayIn(w, cache, key, front, occurring);
      StepStaysIn(Steps(w, front), CacheAfter(w, cache, front), key, e, occurring);
    }
  }

  // ------------------------------------------------------------------ exactness

  /** Where keys tell inputs apart, agreeing under the key is being the same. */
  lemma TellsMeansExact(w: World, key: Build -> Key, occurring: iset<Build>)
    requires Truthful(w, key) && WorldIn(w, occurring) && Tells(key, occurring)
    ensures Exact(w)
  {
    hide P.IsBootstrapRecipe;
    if w.recorded.Some? {
      var inputs := w.recorded.value.inputs;
      forall n, f | !P.IsBootstrapRecipe(n) && n in inputs && f in w.repo && w.repo[f].source == n
        ensures w.repo[f].builtAt == inputs[n]
      {
        assert RecordTrue(w.repo, key, inputs, n);
        assert (n, w.repo[f].builtAt) in occurring && (n, inputs[n]) in occurring;
      }
    }
  }

  lemma ExactIsTruthful(w: World, key: Build -> Key)
    requires Exact(w)
    ensures Truthful(w, key)
  {
    hide P.IsBootstrapRecipe;
    if w.recorded.Some? {
      forall n | !P.IsBootstrapRecipe(n) ensures RecordTrue(w.repo, key, w.recorded.value.inputs, n) {
        assert RecordTrue(w.repo, (b: Build) => b.1, w.recorded.value.inputs, n);
      }
    }
  }

  lemma StaysExact(w: World, cache: set<Build>, key: Build -> Key, es: seq<Event>, occurring: iset<Build>)
    requires Exact(w) && AllFair(w, cache, key, es) && Within(w, cache, es, occurring) && Tells(key, occurring)
    ensures Exact(Steps(w, es))
  {
    ExactIsTruthful(w, key);
    LabelStaysTrue(w, cache, key, es);
    StepsStayIn(w, cache, key, es, occurring);
    TellsMeansExact(Steps(w, es), key, occurring);
  }

  // ------------------------------------------------------------ the failing run

  /** The file name of an RPM, of whatever source. */
  function File(): P.Path {
    "demo-1.0-1.hum1.bfin.x86_64.rpm"
  }

  lemma FileStays()
    ensures !P.IsBootstrap(File()) && !P.Swept(File())
  {
    hide P.Swept, P.IsBootstrap;
    OrdinaryFile(File());
  }

  lemma OrdinaryFile(path: P.Path)
    requires '/' !in path && 't' !in path && path != "" && path[0] != 'i' && path[0] != 'l'
    ensures !P.IsBootstrap(path) && !P.Swept(path)
  {
    hide P.Swept, P.Contains, P.BaseName;
    L.NoSlash(path);
    L.ContainsOnly(path, "-0.bootstrap.", 't');
    P.PublishableSwept(path);
  }

  /** The image of one package: one RPM of it built at `built`, the label at `recorded`. */
  function Image(n: Name, built: Digest, recorded: Digest): World {
    World(map[File() := P.Rpm(n, "1.0-1.hum1.bfin", built)], Some(State(map[n := recorded], map[])), map[n := recorded])
  }

  function Built(n: Name, at: Digest): Publication {
    Publication({n}, map[File() := P.Rpm(n, "1.0-1.hum1.bfin", at)], {}, "success", true, false, {})
  }

  /** A full rebuild against the factory's own repository. */
  function FullRun(n: Name, at: Digest): Event {
    Run(Request([R.Entry(n, 0)], true, true, true, true, {}, {}, {}, {}), [], Built(n, at))
  }

  lemma BuiltCarries(n: Name, at: Digest)
    ensures forall f, b :: Carries(Built(n, at), f, b) <==> f == File() && b == (n, at)
    ensures AcceptedBy(Built(n, at)) == {n}
    ensures MayPublish(Built(n, at)) && P.Publishable(Built(n, at).everything) == Built(n, at).everything
  {
    var p := Built(n, at);
    FileStays();
    hide File, P.IsBootstrap;
    assert P.Publishable(p.everything) == p.everything;
    assert P.Sources(p.everything).Values == {n} by { assert P.Sources(p.everything)[File()] == n; }
  }

  lemma BuiltReplaces(n: Name, at: Digest)
    ensures var p := Built(n, at); MayPublish(p) && ReplacedBy(p) == {n} && FailedBy(p) == {}
  {
    BuiltCarries(n, at);
    hide MayPublish, P.IsBootstrap, P.IsBootstrapRecipe, AcceptedBy;
  }

  lemma NothingSwept(files: P.Files)
    requires files.Keys <= {File()}
    ensures P.Kept(files) == files
  {
    FileStays();
    P.KeptIs(files);
    hide File, P.Kept, P.Swept, P.IsBootstrap;
  }

  lemma PublishBuilt(w: World, trusted: set<Name>, n: Name, at: Digest)
    requires w.digests.Keys == {n} && w.repo.Keys <= {File()} && forall f | f in w.repo :: w.repo[f].source == n
    requires w.recorded.Some? ==> w.recorded.value.inputs.Keys <= {n} && w.recorded.value.failed == map[]
    ensures Publish(w, trusted, Built(n, at)) == Image(n, at, w.digests[n])
  {
    BuiltCarries(n, at);
    BuiltReplaces(n, at);
    L.MergedOne(Seed(w), w.digests, trusted, n);
    var p := Built(n, at);
    CandidateOne(w.repo, p.everything, n);
    PruneNothing(p.everything);
    NothingSwept(p.everything);
    hide MayPublish, ReplacedBy, FailedBy, AcceptedBy, P.Publishable, Merged, P.Candidate, P.Pruned, P.Kept, File;
    assert w.digests == map[n := w.digests[n]];
  }

  lemma RunPublishes(w: World, n: Name, at: Digest)
    requires w.digests.Keys == {n} && w.repo.Keys <= {File()} && forall f | f in w.repo :: w.repo[f].source == n
    requires w.recorded.Some? ==> w.recorded.value.inputs.Keys <= {n} && w.recorded.value.failed == map[]
    ensures Step(w, FullRun(n, at)) == Image(n, at, w.digests[n])
  {
    PublishBuilt(w, Trusted(w, FullRun(n, at).request), n, at);
    hide File, Publish, Trusted, Built, Image;
  }

  lemma CandidateOne(repo: P.Files, built: P.Files, n: Name)
    requires repo.Keys <= built.Keys && forall f | f in built :: built[f].source == n
    requires forall f | f in repo :: repo[f].source == n
    ensures P.Candidate(repo, built, {n}) == built
  {
  }

  /** A full run of one unchanged package may restore it. */
  lemma FullRunCacheable(w: World, n: Name, at: Digest)
    requires w.recorded.None? || w.recorded == Some(State(w.digests, map[]))
    ensures Cacheable(w, FullRun(n, at).request) == {n}
  {
    var q := FullRun(n, at).request;
    assert q.config[0] in q.config;
    assert R.NamesOf(q.config) == {n};
    assert Building(w, q) == {n};
    if w.recorded.Some? {
      assert n !in Moved(w.recorded.value, Restricted(w, q));
    }
    assert n !in ChangedNames(w, q);
  }

  /** The second full build of the failing run, and what each of its steps leaves. */
  function FailingRun(n: Name, d: Digest, e: Digest): seq<Event> {
    [FullRun(n, d), Edit(map[n := e]), FullRun(n, e), FullRun(n, d)]
  }

  lemma FailingSteps(n: Name, d: Digest, e: Digest)
    ensures var w, es := World(map[], None, map[n := d]), FailingRun(n, d, e);
      && Steps(w, es[..0]) == w
      && Steps(w, es[..1]) == Image(n, d, d)
      && Steps(w, es[..2]) == Image(n, d, d).(digests := map[n := e])
      && Steps(w, es[..3]) == Image(n, e, e)
      && Steps(w, es) == Image(n, d, e)
  {
    var w, es := World(map[], None, map[n := d]), FailingRun(n, d, e);
    hide File, Step, FullRun;
    StepNext(w, es, 0);
    StepNext(w, es, 1);
    StepNext(w, es, 2);
    StepNext(w, es, 3);
    RunPublishes(w, n, d);
    EditMoves(Image(n, d, d), map[n := e]);
    RunPublishes(Image(n, d, d).(digests := map[n := e]), n, e);
    RunPublishes(Image(n, e, e), n, d);
    assert es[..4] == es;
  }

  lemma EditMoves(w: World, digests: map<Name, Digest>)
    ensures Step(w, Edit(digests)) == w.(digests := digests)
  {
  }

  lemma StepNext(w: World, es: seq<Event>, i: nat)
    requires i < |es|
    ensures Steps(w, es[..0]) == w && Steps(w, es[..i + 1]) == Step(Steps(w, es[..i]), es[i])
  {
    assert es[..i + 1][..i] == es[..i];
  }

  lemma FreshIsFair(w: World, cache: set<Build>, key: Build -> Key, n: Name)
    requires n in w.digests
    ensures Fair(w, cache, key, FullRun(n, w.digests[n]))
  {
    BuiltCarries(n, w.digests[n]);
    hide Carries, Cacheable, Built, MayPublish, AcceptedBy, P.Publishable;
  }

  lemma OnlyBuildHonest(w: World, q: Request, cache: set<Build>, key: Build -> Key, p: Publication, n: Name, at: Digest)
    requires forall f, b | Carries(p, f, b) :: b == (n, at)
    requires n in w.digests && n in Cacheable(w, q) && (n, at) in cache && key((n, at)) == key((n, w.digests[n]))
    ensures Honest(w, q, cache, key, p)
  {
    hide Carries, Cacheable;
  }

  lemma RestoredIsFair(w: World, cache: set<Build>, key: Build -> Key, n: Name, at: Digest)
    requires w.recorded.None? || w.recorded == Some(State(w.digests, map[]))
    requires n in w.digests && (n, at) in cache && key((n, at)) == key((n, w.digests[n]))
    ensures Fair(w, cache, key, FullRun(n, at))
  {
    BuiltCarries(n, at);
    FullRunCacheable(w, n, at);
    hide File, Carries, Cacheable, Built, Honest, MayPublish, AcceptedBy, P.Publishable;
    OnlyBuildHonest(w, FullRun(n, at).request, cache, key, Built(n, at), n, at);
  }

  lemma FreshIsPushed(w: World, e: Event, n: Name, f: P.Path)
    requires e.Run? && n in Cacheable(w, e.request) && n in w.digests && Carries(e.final, f, (n, w.digests[n]))
    ensures (n, w.digests[n]) in Pushed(w, e)
  {
    hide Carries, Cacheable;
  }

  lemma FirstPushes(n: Name, d: Digest)
    ensures (n, d) in Pushed(World(map[], None, map[n := d]), FullRun(n, d))
  {
    var w := World(map[], None, map[n := d]);
    BuiltCarries(n, d);
    FullRunCacheable(w, n, d);
    hide File, Carries, Cacheable, Built, Pushed, MayPublish, AcceptedBy, P.Publishable;
    assert Carries(Built(n, d), File(), (n, w.digests[n]));
    FreshIsPushed(w, FullRun(n, d), n, File());
  }

  lemma FailingIsFair(key: Build -> Key, n: Name, d: Digest, e: Digest)
    requires key((n, d)) == key((n, e))
    ensures AllFair(World(map[], None, map[n := d]), {}, key, FailingRun(n, d, e))
  {
    var w, es := World(map[], None, map[n := d]), FailingRun(n, d, e);
    FailingSteps(n, d, e);
    FirstPushes(n, d);
    hide FullRun, Step, Steps, Pushed, CacheAfter, Fair;
    CacheNext(w, {}, es, 0);
    CacheNext(w, {}, es, 1);
    CacheNext(w, {}, es, 2);
    FreshIsFair(w, CacheAfter(w, {}, es[..0]), key, n);
    FreshIsFair(Steps(w, es[..2]), CacheAfter(w, {}, es[..2]), key, n);
    RestoredIsFair(Steps(w, es[..3]), CacheAfter(w, {}, es[..3]), key, n, d);
    EditIsFair(Steps(w, es[..1]), CacheAfter(w, {}, es[..1]), key, map[n := e]);
    forall i | 0 <= i < |es| ensures Fair(Steps(w, es[..i]), CacheAfter(w, {}, es[..i]), key, es[i]) {
      assert i == 0 || i == 1 || i == 2 || i == 3;
    }
  }

  lemma EditIsFair(w: World, cache: set<Build>, key: Build -> Key, digests: map<Name, Digest>)
    ensures Fair(w, cache, key, Edit(digests))
  {
  }

  lemma CacheNext(w: World, cache: set<Build>, es: seq<Event>, i: nat)
    requires i < |es|
    ensures CacheAfter(w, cache, es[..i + 1]) == CacheAfter(w, cache, es[..i]) + Pushed(Steps(w, es[..i]), es[i])
  {
    assert es[..i + 1][..i] == es[..i];
  }

  /**
   Two digests of a package with one key: built and cached at the first, edited, rebuilt at the second, and
   rebuilt in full. The label keeps the second, the RPM is of the first, and nothing is left to be done.
   */
  lemma CacheShowsThrough(key: Build -> Key, n: Name, d: Digest, e: Digest, retry: bool)
    requires d != e && key((n, d)) == key((n, e)) && !P.IsBootstrapRecipe(n)
    ensures var w, es := World(map[], None, map[n := d]), FailingRun(n, d, e);
      && Exact(w) && AllFair(w, {}, key, es)
      && Steps(w, es) == Image(n, d, e) && !Exact(Steps(w, es))
      && Changed(Steps(w, es).recorded.value, Steps(w, es).digests, retry) == ({}, {})
  {
    FailingSteps(n, d, e);
    FailingIsFair(key, n, d, e);
    ImageInexact(n, d, e, retry);
    hide Steps, AllFair, FailingRun, Image, Changed, P.IsBootstrapRecipe;
  }

  lemma ImageInexact(n: Name, d: Digest, e: Digest, retry: bool)
    requires d != e && !P.IsBootstrapRecipe(n)
    ensures var image := Image(n, d, e);
      image.recorded.Some? && !Exact(image) && Changed(image.recorded.value, image.digests, retry) == ({}, {})
  {
    hide File, Changed, P.IsBootstrapRecipe;
    var image := Image(n, d, e);
    L.SettledMeansUnchanged(image.recorded.value, image.digests, retry);
    assert !RecordTrue(image.repo, (b: Build) => b.1, map[n := e], n) by { assert image.repo[File()].source == n; }
  }

  lemma FailingStaysIn(n: Name, d: Digest, e: Digest, occurring: iset<Build>)
    requires (n, d) in occurring && (n, e) in occurring
    ensures Within(World(map[], None, map[n := d]), {}, FailingRun(n, d, e), occurring)
  {
  }

  /**
   The label stays exact over every sequence of runs, from any exact image and cache, if and only if among the
   builds that occur a package's key tells its inputs apart.
   */
  lemma ExactIff(key: Build -> Key, occurring: iset<Build>)
    ensures (forall w, cache, es | Exact(w) && AllFair(w, cache, key, es) && Within(w, cache, es, occurring) ::
               Exact(Steps(w, es)))
        <==> Tells(key, occurring)
  {
    hide Exact, AllFair, Within, Steps, FailingRun;
    if Tells(key, occurring) {
      forall w, cache, es | Exact(w) && AllFair(w, cache, key, es) && Within(w, cache, es, occurring)
        ensures Exact(Steps(w, es))
      {
        StaysExact(w, cache, key, es, occurring);
      }
    } else {
      var a, b :| a in occurring && b in occurring && a.0 == b.0 && !P.IsBootstrapRecipe(a.0) && key(a) == key(b)
                  && a != b;
      CacheShowsThrough(key, a.0, a.1, b.1, false);
      FailingStaysIn(a.0, a.1, b.1, occurring);
    }
  }

  /** Where keys tell inputs apart, a run that finds nothing to do has every package there as built now. */
  lemma UnchangedMeansCurrent(w: World, key: Build -> Key, owner: P.Path -> Name, retry: bool, n: Name,
                              occurring: iset<Build>)
    requires L.Sound(w, key, owner) && WorldIn(w, occurring) && Tells(key, occurring)
    requires w.recorded.Some? && Changed(w.recorded.value, w.digests, retry) == ({}, {})
    requires n in w.digests && !P.IsBootstrapRecipe(n)
    ensures exists f :: f in w.repo && w.repo[f].source == n
    ensures forall f | f in w.repo && w.repo[f].source == n :: w.repo[f].builtAt == w.digests[n]
  {
    L.UnchangedMeansPublished(w, key, owner, retry, n);
    hide L.Sound, P.IsBootstrapRecipe, Changed;
    forall f | f in w.repo && w.repo[f].source == n ensures w.repo[f].builtAt == w.digests[n] {
      assert (n, w.repo[f].builtAt) in occurring && (n, w.digests[n]) in occurring;
    }
  }
}
