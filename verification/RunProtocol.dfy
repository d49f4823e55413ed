/**
 Runs of the factory, one after another: tools/rebuild_matrix.py selects
 against the label of the published image, .github/workflows/publish-repository.yml
 publishes with tools/publish_gate.py and tools/factory_state.py.
 */
module RunProtocol {
  import opened Common
  import opened Ordering
  import opened FactoryState
  import P = PublishGate
  import R = RebuildPlan

  /** The published image and the inventory as committed. */
  datatype World = World(repo: P.Files, recorded: Option<State>, digests: map<Name, Digest>)

  /** What one run is started with. `dragged` are the dependents the plan adds. */
  datatype Request = Request(
    config: seq<R.Entry>,
    full: bool,
    factoryRepo: bool,
    readable: bool,
    retryFailed: bool,
    diff: set<Name>,
    matching: set<Name>,
    stale: set<Name>,
    dragged: set<Name>)

  // --------------------------------------------------------- what a run selects

  function PublishedSources(repo: P.Files): set<Name> {
    set p | p in repo :: repo[p].source
  }

  /** The label, when the run has a factory repository at all. */
  function Witness(w: World, q: Request): Option<State> {
    if q.factoryRepo then w.recorded else None
  }

  /** The digests of the packages the run is restricted to. */
  function Restricted(w: World, q: Request): map<Name, Digest> {
    map n | n in w.digests && n in R.NamesOf(q.config) :: w.digests[n]
  }

  function ChangedNames(w: World, q: Request): set<Name> {
    match Witness(w, q)
    case Some(state) => Changed(state, Restricted(w, q), q.retryFailed).0
    case None => q.diff
  }

  function Held(w: World, q: Request): set<Name> {
    match Witness(w, q)
    case Some(state) => Changed(state, Restricted(w, q), q.retryFailed).1
    case None => {}
  }

  function QueryOf(w: World, q: Request): R.Query {
    R.Query(if q.factoryRepo && q.readable then PublishedSources(w.repo) else {}, q.matching,
            ChangedNames(w, q), if q.full then {} else q.stale, q.full, q.factoryRepo, Witness(w, q).Some?)
  }

  function Building(w: World, q: Request): set<Name> {
    R.SelectedNames(q.config, QueryOf(w, q)) + q.dragged
  }

  /** What the run builds without having seen a reason to: it may be restored from the package cache. */
  function Cacheable(w: World, q: Request): set<Name> {
    Building(w, q) - ChangedNames(w, q) - if q.full then {} else q.stale
  }

  /** What the run vouches for without building it. */
  function Trusted(w: World, q: Request): set<Name> {
    R.NamesOf(q.config) - Building(w, q) - Held(w, q)
  }

  // ---------------------------------------------------------------- publication

  /** One publication of a run: what it covers, what was built for it, and its gates. */
  datatype Publication = Publication(
    covered: set<Name>,
    everything: P.Files,
    losers: set<Name>,
    precedence: string,
    transactionResolved: bool,
    isForkPullRequest: bool,
    pruned: set<Name>)

  function AcceptedBy(p: Publication): set<Name> {
    P.Accepted(P.Sources(P.Publishable(p.everything)), p.losers)
  }

  function BootstrappedBy(p: Publication): set<Name> {
    set n | n in p.covered && P.IsBootstrapRecipe(n) && P.AnyBootstrap(p.everything)
  }

  function ReplacedBy(p: Publication): set<Name> {
    AcceptedBy(p) + BootstrappedBy(p)
  }

  function FailedBy(p: Publication): set<Name> {
    p.covered - BootstrappedBy(p) - AcceptedBy(p)
  }

  /** The publish job's own conditions: a run that only prunes skips the precedence job. */
  predicate MayPublish(p: Publication) {
    && !p.isForkPullRequest && p.transactionResolved
    && (p.covered != {} || p.pruned != {})
    && (p.precedence == "success" || (p.covered == {} && p.precedence == "skipped"))
    && |AcceptedBy(p)| + |p.pruned| > 0
  }

  /** Where `publish_allowed` and the job part: the job publishes a run that only prunes and skipped precedence. */
  lemma GateAndJob(p: Publication)
    requires p.covered == {} ==> p.everything == map[]
    ensures var allowed := P.PublishAllowed([], p.precedence, p.transactionResolved, p.isForkPullRequest,
                                            |AcceptedBy(p)|, |p.pruned|);
      && (allowed ==> MayPublish(p))
      && (MayPublish(p) && !allowed <==>
            !p.isForkPullRequest && p.transactionResolved && p.covered == {} && p.pruned != {}
                && p.precedence == "skipped")
  {
    if p.covered == {} {
      assert P.Publishable(p.everything) == map[];
      assert AcceptedBy(p) == {};
    }
    assert p.pruned != {} <==> |p.pruned| > 0;
  }

  /** With nothing built and nothing to prune there is no publication. */
  lemma NothingIsNotPublished(p: Publication)
    requires p.covered == {} && p.pruned == {}
    ensures !MayPublish(p)
  {
  }

  predicate Publishes(w: World, p: Publication) {
    MayPublish(p) && ReplacedBy(p) <= w.digests.Keys
  }

  function Seed(w: World): State {
    if w.recorded.Some? then w.recorded.value else EMPTY
  }

  /** The image after one publication, or the image unchanged when nothing is pushed. */
  function Publish(w: World, trusted: set<Name>, p: Publication): World {
    if !Publishes(w, p) then w
    else World(
      P.Kept(P.Pruned(P.Candidate(w.repo, P.Publishable(p.everything), AcceptedBy(p)), p.pruned)),
      Some(Merged(Seed(w), w.digests, trusted, ReplacedBy(p), FailedBy(p), p.pruned)),
      w.digests)
  }

  function PublishAll(w: World, trusted: set<Name>, ps: seq<Publication>): World
    decreases |ps|
  {
    if ps == [] then w else PublishAll(Publish(w, trusted, ps[0]), trusted, ps[1..])
  }

  /** The publish job: assemble, apply, prune, clean up, write the label, and push if its conditions hold. */
  method PublishImage(w: World, trusted: seq<Name>, buildList: seq<Name>, p: Publication) returns (next: World)
    requires Elements(buildList) == p.covered
    ensures next == Publish(w, Elements(trusted), p)
  {
    hide StrictlySorted, Merged, P.Candidate, P.Publishable, P.Pruned, P.Kept, IsMerge, P.Accepted;
    if !MayPublish(p) { return w; }
    var store := new P.Store(w.repo);
    var bootstrapped := Sorted(BootstrappedBy(p));
    var rest := Sorted(p.covered - BootstrappedBy(p));
    var assembly := store.Replace(P.Publishable(p.everything), rest, p.losers);
    var pruned := Sorted(p.pruned);
    store.Prune(pruned);
    store.CleanUp();
    var merged := Merge(w.recorded, w.digests, trusted, assembly.replaced + bootstrapped, assembly.failed, pruned);
    assert Elements(rest) == p.covered - BootstrappedBy(p);
    assert Elements(assembly.replaced + bootstrapped) == ReplacedBy(p);
    assert Elements(assembly.failed) == FailedBy(p);
    assert Elements(pruned) == p.pruned;
    if merged.KeyError? { return w; }
    MergedIsMerge(Seed(w), w.digests, Elements(trusted), ReplacedBy(p), FailedBy(p), p.pruned);
    MergeUnique(Seed(w), w.digests, Elements(trusted), ReplacedBy(p), FailedBy(p), p.pruned, merged.value,
                Merged(Seed(w), w.digests, Elements(trusted), ReplacedBy(p), FailedBy(p), p.pruned));
    next := World(store.files, Some(merged.value), w.digests);
  }

  // ----------------------------------------------------------------------- runs

  /** A build of a package, and the inputs it was made from. */
  type Build = (Name, Digest)

  /** `Push`: another run of the factory, a bump gate's, leaves builds in the package cache. */
  datatype Event =
    | Edit(digests: map<Name, Digest>)
    | Push(builds: set<Build>)
    | Run(request: Request, early: seq<Publication>, final: Publication)

  function Step(w: World, e: Event): World {
    match e
    case Edit(digests) => w.(digests := digests)
    case Push(_) => w
    case Run(q, early, final) => Publish(PublishAll(w, Trusted(w, q), early), Trusted(w, q), final)
  }

  function Steps(w: World, es: seq<Event>): World {
    if es == [] then w else Step(Steps(w, es[..|es| - 1]), es[|es| - 1])
  }

  // -------------------------------------------------------------- package cache

  /** What a build's cache key holds of its inputs: recipe, build root and disttag, not the whole inventory entry. */
  type Key = string

  /** A file of the publication that carries the name and the inputs of a package's own build. */
  predicate Carries(p: Publication, f: P.Path, b: Build) {
    f in p.everything && !P.IsBootstrap(f) && p.everything[f].source == b.0 && p.everything[f].builtAt == b.1
  }

  /** What an event adds to the package cache: a run pushes what it compiled, if it might have restored it. */
  ghost function Pushed(w: World, e: Event): set<Build> {
    match e
    case Edit(_) => {}
    case Push(builds) => builds
    case Run(q, _, final) =>
      set n | n in Cacheable(w, q) && n in w.digests && (exists f :: Carries(final, f, (n, w.digests[n]))) ::
        (n, w.digests[n])
  }

  ghost function CacheAfter(w: World, cache: set<Build>, es: seq<Event>): set<Build> {
    if es == [] then cache
    else
      var front := es[..|es| - 1];
      CacheAfter(w, cache, front) + Pushed(Steps(w, front), es[|es| - 1])
  }

  /** What a run may restore: a cacheable package's build whose key is the one its inputs give now. */
  ghost predicate Restorable(w: World, q: Request, cache: set<Build>, key: Build -> Key, b: Build) {
    b.0 in Cacheable(w, q) && b.0 in w.digests && b in cache && key(b) == key((b.0, w.digests[b.0]))
  }

  /** Builds are made from the inventory's inputs or restored, and the source name of a recipe is the recipe's. */
  ghost predicate Honest(w: World, q: Request, cache: set<Build>, key: Build -> Key, p: Publication) {
    forall f, b | Carries(p, f, b) ::
      b.0 in w.digests && (b.1 == w.digests[b.0] || Restorable(w, q, cache, key, b))
  }

  ghost predicate Fair(w: World, cache: set<Build>, key: Build -> Key, e: Event) {
    e.Run? ==>
      && Honest(w, e.request, cache, key, e.final)
      && forall p | p in e.early :: Honest(w, e.request, cache, key, p) && p.pruned == {}
  }

  ghost predicate AllFair(w: World, cache: set<Build>, key: Build -> Key, es: seq<Event>) {
    forall i | 0 <= i < |es| :: Fair(Steps(w, es[..i]), CacheAfter(w, cache, es[..i]), key, es[i])
  }

  /** Every build of the publication has the key its package's inputs give now. */
  ghost predicate Keyed(digests: map<Name, Digest>, key: Build -> Key, p: Publication) {
    forall f, b | Carries(p, f, b) :: b.0 in digests && key(b) == key((b.0, digests[b.0]))
  }

  // ------------------------------------------------------------- the label is true

  /** `n`'s recorded digest has the key of the one every published RPM of source `n` was built at. */
  ghost predicate RecordTrue(repo: P.Files, key: Build -> Key, inputs: map<Name, Digest>, n: Name) {
    n in inputs ==> forall f | f in repo && repo[f].source == n :: key((n, repo[f].builtAt)) == key((n, inputs[n]))
  }

  /** Every record is true, bootstrap recipes aside, whose RPMs carry another source name; no label, no RPMs. */
  ghost predicate Truthful(w: World, key: Build -> Key) {
    match w.recorded
    case None => w.repo == map[]
    case Some(state) => forall n | !P.IsBootstrapRecipe(n) :: RecordTrue(w.repo, key, state.inputs, n)
  }

  /** Trust adds nothing: what is trusted is already recorded at its current digest. */
  ghost predicate TrustEarned(w: World, trusted: set<Name>) {
    match w.recorded
    case None => trusted == {}
    case Some(state) => forall n | n in trusted && n in w.digests ::
        n in state.inputs && state.inputs[n] == w.digests[n]
  }

  lemma TrustIsEarned(w: World, key: Build -> Key, q: Request)
    requires Truthful(w, key)
    ensures TrustEarned(w, Trusted(w, q))
  {
    if w.recorded.None? || !q.factoryRepo {
      assert QueryOf(w, q).published == {} || !q.factoryRepo;
      assert forall n | n in R.NamesOf(q.config) :: R.Selected(QueryOf(w, q), n);
    } else {
      var state := w.recorded.value;
      forall n | n in Trusted(w, q) && n in w.digests ensures n in state.inputs && state.inputs[n] == w.digests[n] {
        assert n in Restricted(w, q);
        assert n !in ChangedNames(w, q);
      }
    }
  }

  lemma PublishKeepsRecord(w: World, key: Build -> Key, trusted: set<Name>, p: Publication, n: Name)
    requires Truthful(w, key) && TrustEarned(w, trusted) && Keyed(w.digests, key, p) && Publishes(w, p)
    requires !P.IsBootstrapRecipe(n)
    ensures var next := Publish(w, trusted, p); RecordTrue(next.repo, key, next.recorded.value.inputs, n)
  {
    hide MayPublish, P.IsBootstrap, P.IsBootstrapRecipe, P.PrunedAway;
    var built, accepted := P.Publishable(p.everything), AcceptedBy(p);
    var next := Publish(w, trusted, p);
    var inputs := next.recorded.value.inputs;
    if n in inputs {
      forall f | f in next.repo && next.repo[f].source == n
        ensures key((n, next.repo[f].builtAt)) == key((n, inputs[n]))
      {
        if f in built && built[f].source in accepted {
          assert Carries(p, f, (n, built[f].builtAt));
          assert n in ReplacedBy(p);
        } else {
          assert f in w.repo && w.repo[f] == next.repo[f] && n !in accepted;
          assert w.recorded.Some? && RecordTrue(w.repo, key, w.recorded.value.inputs, n);
        }
      }
    }
  }

  lemma PublishKeepsTruth(w: World, key: Build -> Key, trusted: set<Name>, p: Publication)
    requires Truthful(w, key) && TrustEarned(w, trusted) && Keyed(w.digests, key, p)
    ensures Truthful(Publish(w, trusted, p), key)
    ensures p.pruned == {} ==> TrustEarned(Publish(w, trusted, p), trusted)
  {
    if Publishes(w, p) {
      forall n | !P.IsBootstrapRecipe(n)
        ensures var next := Publish(w, trusted, p); RecordTrue(next.repo, key, next.recorded.value.inputs, n)
      {
        PublishKeepsRecord(w, key, trusted, p, n);
      }
    }
  }

  lemma {:induction false} PublishAllKeepsTruth(w: World, key: Build -> Key, trusted: set<Name>, ps: seq<Publication>)
    requires Truthful(w, key) && TrustEarned(w, trusted)
    requires forall p | p in ps :: Keyed(w.digests, key, p) && p.pruned == {}
    ensures Truthful(PublishAll(w, trusted, ps), key) && TrustEarned(PublishAll(w, trusted, ps), trusted)
    ensures PublishAll(w, trusted, ps).digests == w.digests
    decreases |ps|
  {
    hide Truthful, TrustEarned, Keyed;
    if ps != [] {
      PublishKeepsTruth(w, key, trusted, ps[0]);
      PublishAllKeepsTruth(Publish(w, trusted, ps[0]), key, trusted, ps[1..]);
    }
  }

  lemma HonestIsKeyed(w: World, q: Request, cache: set<Build>, key: Build -> Key, p: Publication)
    requires Honest(w, q, cache, key, p)
    ensures Keyed(w.digests, key, p)
  {
    hide Carries, Cacheable;
  }

  lemma {:induction false} FairBefore(w: World, cache: set<Build>, key: Build -> Key, es: seq<Event>)
    requires es != [] && AllFair(w, cache, key, es)
    ensures var front := es[..|es| - 1];
      AllFair(w, cache, key, front) && Fair(Steps(w, front), CacheAfter(w, cache, front), key, es[|es| - 1])
  {
    hide Fair;
    var front := es[..|es| - 1];
    forall i | 0 <= i < |front| ensures Fair(Steps(w, front[..i]), CacheAfter(w, cache, front[..i]), key, front[i]) {
      assert front[..i] == es[..i];
    }
  }

  /**
   Over every sequence of runs, with any build failures, restored builds, precedence losers, prunes, early
   publications and inventory edits in between: record and RPMs of a package agree on everything a cache key holds.
   */
  lemma {:induction false} LabelStaysTrue(w: World, cache: set<Build>, key: Build -> Key, es: seq<Event>)
    requires Truthful(w, key) && AllFair(w, cache, key, es)
    ensures Truthful(Steps(w, es), key)
    decreases |es|
  {
    hide Truthful, Fair, AllFair, CacheAfter, Step;
    if es != [] {
      var front := es[..|es| - 1];
      FairBefore(w, cache, key, es);
      LabelStaysTrue(w, cache, key, front);
      StepKeepsTruth(Steps(w, front), CacheAfter(w, cache, front), key, es[|es| - 1]);
    }
  }

  lemma StepKeepsTruth(w: World, cache: set<Build>, key: Build -> Key, e: Event)
    requires Truthful(w, key) && Fair(w, cache, key, e)
    ensures Truthful(Step(w, e), key)
  {
    match e
    case Edit(_) =>
    case Push(_) =>
    case Run(q, early, final) =>
      TrustIsEarned(w, key, q);
      hide Truthful, Honest, Keyed, TrustEarned;
      forall p | p in early ensures Keyed(w.digests, key, p) { HonestIsKeyed(w, q, cache, key, p); }
      HonestIsKeyed(w, q, cache, key, final);
      PublishAllKeepsTruth(w, key, Trusted(w, q), early);
      PublishKeepsTruth(PublishAll(w, Trusted(w, q), early), key, Trusted(w, q), final);
  }

  /** A trusted name is never given a digest: the label is the one publishing without trust would leave. */
  lemma TrustWritesNothing(w: World, trusted: set<Name>, p: Publication)
    requires TrustEarned(w, trusted)
    ensures Publish(w, trusted, p) == Publish(w, {}, p)
  {
    var seed := Seed(w);
    assert Merged(seed, w.digests, trusted, ReplacedBy(p), FailedBy(p), p.pruned).inputs
        == Merged(seed, w.digests, {}, ReplacedBy(p), FailedBy(p), p.pruned).inputs;
  }

  // ---------------------------------------------------------------- confluence

  /** An early publication of the same run: for what it covers, the outcomes and the files of the final one. */
  ghost predicate Agrees(early: Publication, final: Publication) {
    && early.pruned == {}
    && AcceptedBy(early) <= AcceptedBy(final)
    && BootstrappedBy(early) <= BootstrappedBy(final)
    && FailedBy(early) <= FailedBy(final) + ReplacedBy(final)
    && forall f | f in P.Publishable(early.everything) && early.everything[f].source in AcceptedBy(early) ::
         f in P.Publishable(final.everything) && final.everything[f] == early.everything[f]
  }

  lemma CandidateAbsorbs(seed: P.Files, a: P.Files, acceptedA: set<Name>, b: P.Files, acceptedB: set<Name>)
    requires acceptedA <= acceptedB
    requires forall f | f in a && a[f].source in acceptedA :: f in b && b[f] == a[f]
    ensures P.Candidate(P.Candidate(seed, a, acceptedA), b, acceptedB) == P.Candidate(seed, b, acceptedB)
  {
    var left, right := P.Candidate(P.Candidate(seed, a, acceptedA), b, acceptedB), P.Candidate(seed, b, acceptedB);
    forall f ensures f in left <==> f in right {}
    forall f | f in left ensures left[f] == right[f] {}
  }

  lemma MergeAbsorbs(seed: State, digests: map<Name, Digest>, trusted: set<Name>,
                     replacedA: set<Name>, failedA: set<Name>,
                     replacedB: set<Name>, failedB: set<Name>, pruned: set<Name>)
    requires replacedA <= replacedB && failedA <= failedB + replacedB
    ensures Merged(Merged(seed, digests, trusted, replacedA, failedA, {}), digests, trusted, replacedB, failedB, pruned)
         == Merged(seed, digests, trusted, replacedB, failedB, pruned)
  {
    var mid := Merged(seed, digests, trusted, replacedA, failedA, {});
    MergedIsMerge(seed, digests, trusted, replacedA, failedA, {});
    MergedIsMerge(mid, digests, trusted, replacedB, failedB, pruned);
    MergedIsMerge(seed, digests, trusted, replacedB, failedB, pruned);
    MergeUnique(seed, digests, trusted, replacedB, failedB, pruned,
                Merged(mid, digests, trusted, replacedB, failedB, pruned),
                Merged(seed, digests, trusted, replacedB, failedB, pruned));
  }

  lemma EarlyAbsorbed(w: World, trusted: set<Name>, early: Publication, final: Publication)
    requires Agrees(early, final) && (Publishes(w, early) ==> Publishes(w, final))
    ensures Publish(Publish(w, trusted, early), trusted, final) == Publish(w, trusted, final)
  {
    if Publishes(w, early) {
      hide P.Candidate, Merged, AcceptedBy, BootstrappedBy, FailedBy, P.Publishable, MayPublish;
      PublishableValues(early.everything);
      PublishableValues(final.everything);
      PruneNothing(P.Candidate(w.repo, P.Publishable(early.everything), AcceptedBy(early)));
      CandidateAbsorbs(w.repo, P.Publishable(early.everything), AcceptedBy(early), P.Publishable(final.everything),
          AcceptedBy(final));
      CleanedBefore(P.Candidate(w.repo, P.Publishable(early.everything), AcceptedBy(early)),
          P.Publishable(final.everything), AcceptedBy(final), final.pruned);
      MergeAbsorbs(Seed(w), w.digests, trusted, ReplacedBy(early), FailedBy(early), ReplacedBy(final), FailedBy(final),
          final.pruned);
    }
  }

  /** Cleaning up the seed first changes nothing. */
  lemma CleanedBefore(seed: P.Files, built: P.Files, accepted: set<Name>, pruned: set<Name>)
    ensures P.Kept(P.Pruned(P.Candidate(P.Kept(seed), built, accepted), pruned))
         == P.Kept(P.Pruned(P.Candidate(seed, built, accepted), pruned))
  {
    KeptPruned(P.Candidate(P.Kept(seed), built, accepted), pruned);
    KeptPruned(P.Candidate(seed, built, accepted), pruned);
    P.KeptIs(seed);
    hide P.Kept, P.Swept, P.PrunedAway;
  }

  lemma KeptPruned(files: P.Files, pruned: set<Name>)
    ensures P.Kept(P.Pruned(files, pruned))
         == map f | f in files && !P.PrunedAway(files[f], pruned) && !P.Swept(f) :: files[f]
  {
    P.KeptIs(P.Pruned(files, pruned));
    hide P.Kept, P.Swept, P.PrunedAway;
  }

  lemma PublishableValues(files: P.Files)
    ensures forall f | f in P.Publishable(files) :: f in files && P.Publishable(files)[f] == files[f]
  {
  }

  lemma PruneNothing(repo: P.Files)
    ensures P.Pruned(repo, {}) == repo
  {
  }

  /**
   Early publications do not show: whichever of them passed their gates, the
   final one leaves the repository and the label it would have left alone.
   */
  lemma {:induction false} EarlyPublicationsConfluent(w: World, trusted: set<Name>, early: seq<Publication>,
                                                      final: Publication)
    requires forall p | p in early :: Agrees(p, final)
    requires Publishes(w, final) || AcceptedBy(final) == {}
    ensures Publish(PublishAll(w, trusted, early), trusted, final) == Publish(w, trusted, final)
    decreases |early|
  {
    hide Agrees, MayPublish;
    if early != [] {
      var next := Publish(w, trusted, early[0]);
      EarlyMeansFinal(w, early[0], final);
      EarlyAbsorbed(w, trusted, early[0], final);
      assert next.digests == w.digests;
      EarlyPublicationsConfluent(next, trusted, early[1..], final);
    }
  }

  lemma EarlyMeansFinal(w: World, early: Publication, final: Publication)
    requires Agrees(early, final) && (Publishes(w, final) || AcceptedBy(final) == {})
    ensures Publishes(w, early) ==> Publishes(w, final)
  {
    if AcceptedBy(final) == {} { assert AcceptedBy(early) == {}; }
  }

  /**
   What the waves so far built, bootstrap recipes among it, is such a publication: `recipe` says which
   recipe's build made each file, and a publication takes the files of the recipes it covers.
   */
  lemma CoveredWavesAgree(early: Publication, final: Publication, recipe: map<P.Path, Name>)
    requires early.covered <= final.covered && early.pruned == {}
    requires P.MadeBy(final.everything, recipe)
    requires early.everything == map f | f in final.everything && recipe[f] in early.covered :: final.everything[f]
    requires early.losers == final.losers * early.covered
    ensures Agrees(early, final)
  {
    hide P.IsBootstrap, P.IsBootstrapRecipe;
    var a, b := P.Publishable(early.everything), P.Publishable(final.everything);
    assert forall f | f in a :: f in b && a[f] == b[f];
    forall n | n in AcceptedBy(early) ensures n in AcceptedBy(final) {
      var f :| f in a && P.Sources(a)[f] == n;
      assert f in b && P.Sources(b)[f] == n;
      assert n in early.covered;
    }
  }
}
