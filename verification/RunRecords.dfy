/**
 What runs of the factory keep on record: failures until they are settled, and
 for every recorded build its RPMs.
 */
module RunRecords {
  import opened Common
  import opened FactoryState
  import opened RunProtocol
  import P = PublishGate
  import R = RebuildPlan

  // ----------------------------------------------------- nothing is forgotten

  /** A moved package is built or held back, and held only for having failed at this very digest. */
  lemma MovedIsBuiltOrHeld(w: World, q: Request, n: Name)
    requires q.factoryRepo && w.recorded.Some? && n in Restricted(w, q)
    requires Get(w.recorded.value.inputs, n) != Some(w.digests[n])
    ensures n in Building(w, q) || n in Held(w, q)
    ensures n in Held(w, q) ==> !q.retryFailed && Get(w.recorded.value.failed, n) == Some(w.digests[n])
    ensures n !in Trusted(w, q)
  {
    var state := w.recorded.value;
    assert n in Moved(state, Restricted(w, q));
    if n !in Held(w, q) { assert n in ChangedNames(w, q); }
  }

  /** A publication that covers `n` and is pushed records it as built, as failed, or prunes it. */
  lemma OutcomeRecorded(w: World, trusted: set<Name>, p: Publication, n: Name)
    requires Publishes(w, p) && n in p.covered && n in w.digests && n !in p.pruned
    ensures var s := Publish(w, trusted, p).recorded.value;
      if n in ReplacedBy(p) then Get(s.inputs, n) == Some(w.digests[n]) && n !in s.failed
      else Get(s.failed, n) == Some(w.digests[n])
  {
  }

  /** The publication is pushed and says something of `n`, or drops it. */
  ghost predicate Settles(w: World, p: Publication, n: Name) {
    Publishes(w, p) && (n in ReplacedBy(p) || n in FailedBy(p) || n in p.pruned || n !in w.digests)
  }

  ghost predicate SettledIn(w: World, e: Event, n: Name) {
    e.Run? && (Settles(w, e.final, n) || exists p :: p in e.early && Settles(w, p, n))
  }

  ghost predicate Remembers(w: World, n: Name, digest: Digest) {
    w.recorded.Some? && Get(w.recorded.value.failed, n) == Some(digest)
  }

  lemma FailureKept(w: World, trusted: set<Name>, p: Publication, n: Name, digest: Digest)
    requires Remembers(w, n, digest) && !Settles(w, p, n)
    ensures Remembers(Publish(w, trusted, p), n, digest)
  {
    hide MayPublish, AcceptedBy, BootstrappedBy, FailedBy;
  }

  lemma SettlesByInventory(v: World, w: World, p: Publication, n: Name)
    requires v.digests == w.digests
    ensures Settles(v, p, n) <==> Settles(w, p, n)
  {
  }

  lemma {:induction false} FailureKeptByAll(w: World, trusted: set<Name>, ps: seq<Publication>, n: Name, digest: Digest)
    requires Remembers(w, n, digest) && forall p | p in ps :: !Settles(w, p, n)
    ensures Remembers(PublishAll(w, trusted, ps), n, digest)
    ensures PublishAll(w, trusted, ps).digests == w.digests
    decreases |ps|
  {
    hide Remembers, MayPublish, ReplacedBy, FailedBy, Settles;
    if ps != [] {
      FailureKept(w, trusted, ps[0], n, digest);
      forall p | p in ps[1..] ensures !Settles(Publish(w, trusted, ps[0]), p, n) {
        SettlesByInventory(w, Publish(w, trusted, ps[0]), p, n);
      }
      FailureKeptByAll(Publish(w, trusted, ps[0]), trusted, ps[1..], n, digest);
    }
  }

  lemma FailureKeptByStep(w: World, e: Event, n: Name, digest: Digest)
    requires Remembers(w, n, digest) && !SettledIn(w, e, n)
    ensures Remembers(Step(w, e), n, digest)
  {
    hide MayPublish, ReplacedBy, FailedBy;
    match e
    case Edit(_) =>
    case Push(_) =>
    case Run(q, early, final) =>
      FailureKeptByAll(w, Trusted(w, q), early, n, digest);
      SettlesByInventory(w, PublishAll(w, Trusted(w, q), early), final, n);
      FailureKept(PublishAll(w, Trusted(w, q), early), Trusted(w, q), final, n, digest);
  }

  /**
   Over any runs and edits a failure record lasts, at its digest, until a pushed publication, early or
   final, replaces the package, records it failed again, prunes it, or finds it out of the inventory.
   */
  lemma {:induction false} FailureRemembered(w: World, es: seq<Event>, n: Name, digest: Digest)
    requires Remembers(w, n, digest)
    ensures Remembers(Steps(w, es), n, digest) || exists i :: 0 <= i < |es| && SettledIn(Steps(w, es[..i]), es[i], n)
    decreases |es|
  {
    hide Remembers, SettledIn, Step;
    if es != [] {
      var k := |es| - 1;
      FailureRemembered(w, es[..k], n, digest);
      if Remembers(Steps(w, es[..k]), n, digest) {
        if !SettledIn(Steps(w, es[..k]), es[k], n) { FailureKeptByStep(Steps(w, es[..k]), es[k], n, digest); }
      } else {
        var i :| 0 <= i < k && SettledIn(Steps(w, es[..k][..i]), es[..k][i], n);
        assert es[..k][..i] == es[..i] && es[..k][i] == es[i];
      }
    }
  }

  // ------------------------------------------------------------- convergence

  /**
   A full retry in which everything selected is replaced, early publications included, settles the label:
   the next run finds nothing changed and nothing held -- exactly when it pruned nothing the inventory
   still carries.
   */
  lemma RetryConverges(w: World, q: Request, early: seq<Publication>, p: Publication, retry: bool)
    requires w.recorded.Some? && q.factoryRepo && q.retryFailed && R.NamesOf(q.config) == w.digests.Keys
    requires p.covered == Building(w, q) && p.covered <= ReplacedBy(p) && Publishes(w, p)
    requires forall e | e in early :: Agrees(e, p)
    ensures var next := Step(w, Run(q, early, p));
      next.recorded.Some?
          && (Changed(next.recorded.value, next.digests, retry) == ({}, {}) <==> p.pruned !! w.digests.Keys)
  {
    hide MayPublish, AcceptedBy, FailedBy, BootstrappedBy, Building, Held, Trusted, Changed, Agrees;
    EarlyPublicationsConfluent(w, Trusted(w, q), early, p);
    var state := Publish(w, Trusted(w, q), p).recorded.value;
    assert Restricted(w, q) == w.digests;
    if p.pruned !! w.digests.Keys {
      forall n | n in w.digests ensures Get(state.inputs, n) == Some(w.digests[n]) && n !in state.failed {
        SettledOne(w, q, p, n);
      }
      SettledMeansUnchanged(state, w.digests, retry);
    } else {
      var n :| n in p.pruned && n in w.digests;
      MissingMeansChanged(state, w.digests, retry, n);
    }
  }

  lemma SettledMeansUnchanged(state: State, digests: map<Name, Digest>, retry: bool)
    requires forall n | n in digests :: Get(state.inputs, n) == Some(digests[n]) && n !in state.failed
    ensures Changed(state, digests, retry) == ({}, {})
  {
    assert Moved(state, digests) == {} && Failing(state, digests) == {};
    assert KnownFailures(state, digests) == {};
    assert Moved(state, digests) + Failing(state, digests) == {}
        && Moved(state, digests) - KnownFailures(state, digests) == {};
  }

  lemma MissingMeansChanged(state: State, digests: map<Name, Digest>, retry: bool, n: Name)
    requires n in digests && n !in state.inputs && n !in state.failed
    ensures n in Changed(state, digests, retry).0
  {
  }

  lemma SettledOne(w: World, q: Request, p: Publication, n: Name)
    requires w.recorded.Some? && q.factoryRepo && q.retryFailed && Restricted(w, q) == w.digests
    requires n in w.digests && n in R.NamesOf(q.config) && n !in p.pruned
    requires p.covered == Building(w, q) && p.covered <= ReplacedBy(p) && Publishes(w, p)
    ensures var s := Publish(w, Trusted(w, q), p).recorded.value;
      Get(s.inputs, n) == Some(w.digests[n]) && n !in s.failed
  {
    if n !in ReplacedBy(p) {
      assert n !in Building(w, q) && n !in ChangedNames(w, q);
      assert n !in Moved(w.recorded.value, w.digests) && n !in Failing(w.recorded.value, w.digests);
    }
  }

  // -------------------------------------------------------- bootstrap recipes

  /**
   A covered bootstrap recipe with no file of its own: it is recorded as built exactly when some other
   recipe's bootstrap RPM is there, and as failed otherwise.
   */
  lemma BootstrapCredit(w: World, trusted: set<Name>, p: Publication, recipe: map<P.Path, Name>, n: Name)
    requires Publishes(w, p) && P.MadeBy(p.everything, recipe)
    requires n in p.covered && P.IsBootstrapRecipe(n) && n in w.digests && n !in p.pruned
    requires n !in recipe.Values
    ensures var s := Publish(w, trusted, p).recorded.value;
      && (Get(s.inputs, n) == Some(w.digests[n]) && n !in s.failed <==> P.AnyBootstrap(p.everything))
      && (Get(s.failed, n) == Some(w.digests[n]) <==> !P.AnyBootstrap(p.everything))
  {
    OutcomeRecorded(w, trusted, p, n);
    hide P.IsBootstrap, P.IsBootstrapRecipe, MayPublish, Publish;
    forall f | f in P.Publishable(p.everything) ensures P.Publishable(p.everything)[f].source != n {
      assert recipe[f] in recipe.Values;
    }
    assert n !in AcceptedBy(p);
  }

  // -------------------------------------------------------- a record has RPMs

  /** A recorded package really has an RPM in the repository. */
  ghost predicate RecordBacked(w: World, n: Name) {
    w.recorded.Some? && n in w.recorded.value.inputs ==> exists f :: f in w.repo && w.repo[f].source == n
  }

  ghost predicate Backed(w: World) {
    forall n | !P.IsBootstrapRecipe(n) :: RecordBacked(w, n)
  }

  /** What a publication leaves before it prunes and cleans up. */
  function CandidateOf(w: World, p: Publication): P.Files {
    P.Candidate(w.repo, P.Publishable(p.everything), AcceptedBy(p))
  }

  /** Every RPM of `n` is pruned, or deleted by its file name. */
  ghost predicate Swallowed(files: P.Files, pruned: set<Name>, n: Name) {
    forall f | f in files && files[f].source == n :: P.PrunedAway(files[f], pruned) || P.Swept(f)
  }

  /** Every RPM of `n` is deleted by its file name. */
  ghost predicate AllSwept(files: P.Files, n: Name) {
    forall f | f in files && files[f].source == n :: P.Swept(f)
  }

  /** Recorded after the publication, and no bootstrap recipe. */
  ghost predicate Retained(w: World, trusted: set<Name>, p: Publication, n: Name)
    requires Publishes(w, p)
  {
    !P.IsBootstrapRecipe(n) && n in Publish(w, trusted, p).recorded.value.inputs
  }

  /** Before anything is deleted, every name that will be recorded has an RPM. */
  lemma CandidateBacks(w: World, trusted: set<Name>, p: Publication, n: Name)
    requires Backed(w) && TrustEarned(w, trusted) && Publishes(w, p) && Retained(w, trusted, p, n)
    requires P.PathsDistinct(w.repo, P.Publishable(p.everything), AcceptedBy(p))
    ensures exists f :: f in CandidateOf(w, p) && CandidateOf(w, p)[f].source == n
    ensures n !in p.pruned && n in w.digests
  {
    hide MayPublish, P.IsBootstrap, P.IsBootstrapRecipe, P.Pruned, P.Kept;
    var built := P.Publishable(p.everything);
    if n in AcceptedBy(p) {
      var f :| f in built && P.Sources(built)[f] == n;
      assert f in CandidateOf(w, p) && CandidateOf(w, p)[f] == built[f];
    } else {
      assert n !in ReplacedBy(p);
      assert w.recorded.Some? && n in w.recorded.value.inputs && RecordBacked(w, n);
      var f :| f in w.repo && w.repo[f].source == n;
      assert f in CandidateOf(w, p) && CandidateOf(w, p)[f] == w.repo[f];
    }
  }

  /** A publication keeps every record backed, exactly when it deletes no retained name's every RPM. */
  lemma PublishKeepsBacking(w: World, trusted: set<Name>, p: Publication)
    requires Backed(w) && TrustEarned(w, trusted) && Publishes(w, p)
    requires P.PathsDistinct(w.repo, P.Publishable(p.everything), AcceptedBy(p))
    ensures Backed(Publish(w, trusted, p)) <==>
        forall n | Retained(w, trusted, p, n) :: !Swallowed(CandidateOf(w, p), p.pruned, n)
  {
    hide MayPublish, P.IsBootstrapRecipe, P.Candidate, P.PrunedAway, P.Pruned, P.Kept, P.Swept, AcceptedBy;
    var next, before := Publish(w, trusted, p), CandidateOf(w, p);
    KeptPruned(before, p.pruned);
    forall n | Retained(w, trusted, p, n) ensures RecordBacked(next, n) <==> !Swallowed(before, p.pruned, n) {
      if f :| f in before && before[f].source == n && !P.PrunedAway(before[f], p.pruned) && !P.Swept(f) {
        assert f in next.repo && next.repo[f].source == n;
      }
      if f :| f in next.repo && next.repo[f].source == n {
        assert f in before && before[f] == next.repo[f] && !P.PrunedAway(before[f], p.pruned) && !P.Swept(f);
      }
    }
  }

  /** All RPMs of a source are of one version and release. */
  ghost predicate OneBuildEach(files: P.Files) {
    forall f, g | f in files && g in files && files[f].source == files[g].source ::
        files[f].versionRelease == files[g].versionRelease
  }

  /** For some pruned name and some RPM of `n`, name and dash begin its source, version and release. */
  ghost predicate PrunedByName(files: P.Files, pruned: set<Name>, n: Name) {
    exists s, f :: s in pruned && f in files && files[f].source == n && s + "-" <= P.SourceRpm(files[f])
  }

  /**
   On names: with one build of each source, a publication leaves some record without RPMs exactly when some
   retained source is pruned by name, or the publish job deletes all its files by theirs.
   */
  lemma BackingByNames(w: World, trusted: set<Name>, p: Publication)
    requires Backed(w) && TrustEarned(w, trusted) && Publishes(w, p) && OneBuildEach(CandidateOf(w, p))
    requires P.PathsDistinct(w.repo, P.Publishable(p.everything), AcceptedBy(p))
    ensures !Backed(Publish(w, trusted, p)) <==>
      exists n :: && Retained(w, trusted, p, n)
                  && (PrunedByName(CandidateOf(w, p), p.pruned, n) || AllSwept(CandidateOf(w, p), n))
  {
    PublishKeepsBacking(w, trusted, p);
    hide Publishes, Publish, Backed, Retained, CandidateOf, Swallowed, PrunedByName, AllSwept;
    forall n | Retained(w, trusted, p, n)
      ensures Swallowed(CandidateOf(w, p), p.pruned, n) <==>
                PrunedByName(CandidateOf(w, p), p.pruned, n) || AllSwept(CandidateOf(w, p), n)
    {
      CandidateBacks(w, trusted, p, n);
      SwallowedByNames(CandidateOf(w, p), p.pruned, n);
    }
  }

  lemma SwallowedByNames(files: P.Files, pruned: set<Name>, n: Name)
    requires OneBuildEach(files)
    ensures Swallowed(files, pruned, n) <==> PrunedByName(files, pruned, n) || AllSwept(files, n)
  {
    hide P.SourceRpm, P.Swept;
    if PrunedByName(files, pruned, n) {
      var s, g :| s in pruned && g in files && files[g].source == n && s + "-" <= P.SourceRpm(files[g]);
      forall h | h in files && files[h].source == n ensures P.PrunedAway(files[h], pruned) {
        SameSourceRpm(files[g], files[h]);
        assert P.PruneMatches(files[h], s);
      }
    } else if Swallowed(files, pruned, n) {
      assert forall f, s | f in files && files[f].source == n && s in pruned :: !P.PruneMatches(files[f], s);
    }
  }

  lemma SameSourceRpm(a: P.Rpm, b: P.Rpm)
    requires a.source == b.source && a.versionRelease == b.versionRelease
    ensures P.SourceRpm(a) == P.SourceRpm(b)
  {
  }

  /** A pruned name that goes on to a retained source with a dash takes all its RPMs, whatever the version. */
  lemma NeighbourSwallowed(files: P.Files, pruned: set<Name>, s: Name, n: Name)
    requires s in pruned && s + "-" <= n
    ensures Swallowed(files, pruned, n)
  {
    forall f | f in files && files[f].source == n ensures P.PrunedAway(files[f], pruned) {
      P.PruneMatchesNames(files[f], s);
    }
  }

  /** Names that stand apart from every pruned name lose nothing but what is deleted by file name. */
  lemma ApartKept(files: P.Files, pruned: set<Name>, f: P.Path)
    requires f in files && !P.Swept(f) && forall s | s in pruned :: P.Apart(s, files[f].source)
    ensures !Swallowed(files, pruned, files[f].source)
  {
    hide P.Swept;
    forall s | s in pruned ensures !P.PruneMatches(files[f], s) { P.PruneMatchesNames(files[f], s); }
  }

  // ----------------------------------------------------------- over all runs

  /** Files of distinct sources have distinct paths. */
  ghost predicate Owned(files: P.Files, owner: P.Path -> Name) {
    forall f | f in files :: files[f].source == owner(f)
  }

  /** Every source that enters the repository has a file the publish job does not delete by its name. */
  ghost predicate Outlasts(p: Publication) {
    forall n | n in AcceptedBy(p) && !P.IsBootstrapRecipe(n) && n !in p.pruned ::
      !AllSwept(P.Publishable(p.everything), n)
  }

  /** The run's builds keep to their paths and outlast it; what it prunes stands apart from the inventory's rest. */
  ghost predicate Tidy(digests: map<Name, Digest>, p: Publication, owner: P.Path -> Name) {
    && Owned(P.Publishable(p.everything), owner) && Outlasts(p)
    && forall s, n | s in p.pruned && n in digests && n !in p.pruned && !P.IsBootstrapRecipe(n) :: P.Apart(s, n)
  }

  ghost predicate TidyStep(w: World, e: Event, owner: P.Path -> Name) {
    e.Run? ==> Tidy(w.digests, e.final, owner) && forall p | p in e.early :: Tidy(w.digests, p, owner)
  }

  /** Every recorded package has an RPM that is not deleted by its name, bootstrap recipes aside. */
  ghost predicate Lasting(w: World) {
    w.recorded.Some? ==>
      forall n | n in w.recorded.value.inputs && !P.IsBootstrapRecipe(n) :: !AllSwept(w.repo, n)
  }

  ghost predicate Sound(w: World, key: Build -> Key, owner: P.Path -> Name) {
    Truthful(w, key) && Lasting(w) && Owned(w.repo, owner)
  }

  lemma LastingIsBacked(w: World)
    requires Lasting(w)
    ensures Backed(w)
  {
    hide P.Swept, P.IsBootstrapRecipe;
  }

  /** A publication deletes by name whatever it could, so what it leaves backed will last. */
  lemma PublishedLasts(w: World, trusted: set<Name>, p: Publication)
    requires Publishes(w, p) && Backed(Publish(w, trusted, p))
    ensures Lasting(Publish(w, trusted, p))
  {
    var next := Publish(w, trusted, p);
    KeptPruned(CandidateOf(w, p), p.pruned);
    hide MayPublish, P.IsBootstrapRecipe, P.Candidate, P.PrunedAway, P.Pruned, P.Kept, P.Swept, AcceptedBy, Merged;
    forall n | n in next.recorded.value.inputs && !P.IsBootstrapRecipe(n) ensures !AllSwept(next.repo, n) {
      assert RecordBacked(next, n);
    }
  }

  lemma PublishKeepsOwners(w: World, trusted: set<Name>, p: Publication, owner: P.Path -> Name)
    requires Owned(w.repo, owner) && Owned(P.Publishable(p.everything), owner)
    ensures Owned(Publish(w, trusted, p).repo, owner)
    ensures P.PathsDistinct(w.repo, P.Publishable(p.everything), AcceptedBy(p))
  {
    hide MayPublish, P.PrunedAway, AcceptedBy, P.Publishable;
  }

  lemma PublishKeepsSound(w: World, key: Build -> Key, trusted: set<Name>, p: Publication, owner: P.Path -> Name)
    requires Sound(w, key, owner) && TrustEarned(w, trusted)
    requires Keyed(w.digests, key, p) && Tidy(w.digests, p, owner)
    ensures Sound(Publish(w, trusted, p), key, owner)
    ensures p.pruned == {} ==> TrustEarned(Publish(w, trusted, p), trusted)
  {
    PublishKeepsTruth(w, key, trusted, p);
    PublishKeepsOwners(w, trusted, p, owner);
    hide Truthful, Owned, Keyed, TrustEarned, P.PathsDistinct, P.Apart, MayPublish, AcceptedBy, Retained, CandidateOf,
        Lasting, Backed, Publishes, Swallowed, Tidy;
    if Publishes(w, p) {
      LastingIsBacked(w);
      PublishKeepsBacking(w, trusted, p);
      forall n | Retained(w, trusted, p, n) ensures !Swallowed(CandidateOf(w, p), p.pruned, n) {
        RetainedKept(w, trusted, p, owner, n);
      }
      PublishedLasts(w, trusted, p);
    }
  }

  /** Before anything is deleted, every name that will be recorded has an RPM that is not deleted by its name. */
  lemma CandidateLasts(w: World, trusted: set<Name>, p: Publication, n: Name)
    requires Lasting(w) && TrustEarned(w, trusted) && Publishes(w, p) && Retained(w, trusted, p, n) && Outlasts(p)
    requires P.PathsDistinct(w.repo, P.Publishable(p.everything), AcceptedBy(p))
    ensures !AllSwept(CandidateOf(w, p), n) && n !in p.pruned && n in w.digests
  {
    hide MayPublish, P.IsBootstrap, P.IsBootstrapRecipe, P.Pruned, P.Kept, P.Swept;
    var built := P.Publishable(p.everything);
    if n in AcceptedBy(p) {
      var f :| f in built && built[f].source == n && !P.Swept(f);
      assert f in CandidateOf(w, p) && CandidateOf(w, p)[f] == built[f];
    } else {
      assert n !in ReplacedBy(p);
      var f :| f in w.repo && w.repo[f].source == n && !P.Swept(f);
      assert f in CandidateOf(w, p) && CandidateOf(w, p)[f] == w.repo[f];
    }
  }

  lemma RetainedKept(w: World, trusted: set<Name>, p: Publication, owner: P.Path -> Name, n: Name)
    requires Lasting(w) && TrustEarned(w, trusted) && Publishes(w, p) && Retained(w, trusted, p, n)
    requires P.PathsDistinct(w.repo, P.Publishable(p.everything), AcceptedBy(p)) && Tidy(w.digests, p, owner)
    ensures !Swallowed(CandidateOf(w, p), p.pruned, n)
  {
    CandidateLasts(w, trusted, p, n);
    assert !P.IsBootstrapRecipe(n);
    hide Publishes, Publish, Lasting, TrustEarned, P.IsBootstrapRecipe, CandidateOf, P.Apart, P.PathsDistinct, P.Swept,
        Swallowed;
    var f :| f in CandidateOf(w, p) && CandidateOf(w, p)[f].source == n && !P.Swept(f);
    ApartKept(CandidateOf(w, p), p.pruned, f);
  }

  lemma {:induction false} PublishAllKeepsSound(w: World, key: Build -> Key, trusted: set<Name>, ps: seq<Publication>,
                                                owner: P.Path -> Name)
    requires Sound(w, key, owner) && TrustEarned(w, trusted)
    requires forall p | p in ps :: Keyed(w.digests, key, p) && p.pruned == {} && Tidy(w.digests, p, owner)
    ensures Sound(PublishAll(w, trusted, ps), key, owner) && TrustEarned(PublishAll(w, trusted, ps), trusted)
    ensures PublishAll(w, trusted, ps).digests == w.digests
    decreases |ps|
  {
    hide Sound, TrustEarned, Keyed, Tidy, MayPublish;
    if ps != [] {
      PublishKeepsSound(w, key, trusted, ps[0], owner);
      PublishAllKeepsSound(Publish(w, trusted, ps[0]), key, trusted, ps[1..], owner);
    }
  }

  lemma StepKeepsSound(w: World, cache: set<Build>, key: Build -> Key, e: Event, owner: P.Path -> Name)
    requires Sound(w, key, owner) && Fair(w, cache, key, e) && TidyStep(w, e, owner)
    ensures Sound(Step(w, e), key, owner)
  {
    hide Honest, Keyed, Tidy, TrustEarned;
    match e
    case Edit(_) =>
    case Push(_) =>
    case Run(q, early, final) =>
      TrustIsEarned(w, key, q);
      hide Truthful, Lasting, Owned;
      forall p | p in early ensures Keyed(w.digests, key, p) { HonestIsKeyed(w, q, cache, key, p); }
      HonestIsKeyed(w, q, cache, key, final);
      PublishAllKeepsSound(w, key, Trusted(w, q), early, owner);
      PublishKeepsSound(PublishAll(w, Trusted(w, q), early), key, Trusted(w, q), final, owner);
  }

  /**
   Over every sequence of runs whose builds keep to their own paths and outlast the clean-up, and whose pruned
   names stand apart from the inventory: the label is true, and every recorded package has an RPM that will stay,
   bootstrap recipes aside.
   */
  lemma {:induction false} RecordsStayBacked(w: World, cache: set<Build>, key: Build -> Key, es: seq<Event>,
                                             owner: P.Path -> Name)
    requires Sound(w, key, owner) && AllFair(w, cache, key, es)
    requires forall i | 0 <= i < |es| :: TidyStep(Steps(w, es[..i]), es[i], owner)
    ensures Sound(Steps(w, es), key, owner)
    decreases |es|
  {
    hide Sound, Fair, AllFair, CacheAfter, TidyStep, Step;
    if es != [] {
      var front := es[..|es| - 1];
      FairBefore(w, cache, key, es);
      forall i | 0 <= i < |front| ensures TidyStep(Steps(w, front[..i]), front[i], owner) {
        assert front[..i] == es[..i];
      }
      RecordsStayBacked(w, cache, key, front, owner);
      StepKeepsSound(Steps(w, front), CacheAfter(w, cache, front), key, es[|es| - 1], owner);
    }
  }

  /**
   With the label true and backed, a run that finds nothing to do leaves nothing out: every package is there,
   as a build whose key its current inputs give.
   */
  lemma UnchangedMeansPublished(w: World, key: Build -> Key, owner: P.Path -> Name, retry: bool, n: Name)
    requires Sound(w, key, owner) && w.recorded.Some?
    requires Changed(w.recorded.value, w.digests, retry) == ({}, {})
    requires n in w.digests && !P.IsBootstrapRecipe(n)
    ensures exists f :: f in w.repo && w.repo[f].source == n
    ensures forall f | f in w.repo && w.repo[f].source == n :: key((n, w.repo[f].builtAt)) == key((n, w.digests[n]))
  {
    var state := w.recorded.value;
    assert n !in Moved(state, w.digests) by {
      assert n !in Changed(state, w.digests, retry).0 && n !in Changed(state, w.digests, retry).1;
    }
    assert n in state.inputs && state.inputs[n] == w.digests[n];
    LastingIsBacked(w);
    assert RecordBacked(w, n) && RecordTrue(w.repo, key, state.inputs, n);
  }

  // ----------------------------------------------------------------- witnesses

  /** A run that only prunes. */
  lemma PruneAlone(w: World, p: Publication)
    requires p.covered == {} && p.everything == map[] && p.precedence == "skipped"
    requires p.transactionResolved && !p.isForkPullRequest && p.pruned != {}
    ensures Publish(w, {}, p)
         == World(P.Kept(P.Pruned(w.repo, p.pruned)), Some(Merged(Seed(w), w.digests, {}, {}, {}, p.pruned)), w.digests)
  {
    NothingBuilt(w.repo, p);
    assert |p.pruned| > 0;
    hide P.Pruned, P.Kept, Merged, P.Candidate, P.Publishable, AcceptedBy, ReplacedBy, FailedBy;
  }

  lemma NothingBuilt(repo: P.Files, p: Publication)
    requires p.covered == {} && p.everything == map[]
    ensures AcceptedBy(p) == {} && ReplacedBy(p) == {} && FailedBy(p) == {}
    ensures P.Candidate(repo, P.Publishable(p.everything), AcceptedBy(p)) == repo
  {
    assert P.Publishable(p.everything) == map[];
    assert P.Candidate(repo, map[], {}) == repo;
  }

  function PruneOnly(name: Name): Publication {
    Publication({}, map[], {}, "skipped", true, false, {name})
  }

  /** The publish job publishes it, and `publish_allowed` refuses it. */
  lemma PruneOnlyIsPublished(name: Name)
    ensures var p := PruneOnly(name);
      MayPublish(p) && !P.PublishAllowed([], p.precedence, p.transactionResolved, p.isForkPullRequest,
                                         |AcceptedBy(p)|, |p.pruned|)
  {
    GateAndJob(PruneOnly(name));
  }

  /** Pruning `name` deletes the one RPM of another source and leaves its record, so no later run rebuilds it. */
  ghost predicate LosesItsRpm(path: P.Path, rpm: P.Rpm, name: Name, retry: bool) {
    var recorded := map[rpm.source := rpm.builtAt];
    var w := World(map[path := rpm], Some(State(recorded, map[])), recorded);
    var next := Publish(w, {}, PruneOnly(name));
    && RecordBacked(w, rpm.source) && next.recorded.Some? && !RecordBacked(next, rpm.source)
    && Changed(next.recorded.value, next.digests, retry) == ({}, {})
  }

  lemma NeighbourLosesItsRpm(path: P.Path, rpm: P.Rpm, name: Name, retry: bool)
    requires name + "-" <= rpm.source
    ensures LosesItsRpm(path, rpm, name, retry)
  {
    hide Publish, Changed, IsMerge, P.Swept, P.SourceRpm;
    var recorded := map[rpm.source := rpm.builtAt];
    var w := World(map[path := rpm], Some(State(recorded, map[])), recorded);
    assert RecordBacked(w, rpm.source) by { assert w.repo[path].source == rpm.source; }
    PruneAlone(w, PruneOnly(name));
    P.PruneMatchesNames(rpm, name);
    assert P.Pruned(w.repo, {name}) == map[] && P.Kept(map[]) == map[];
    var state := Merged(Seed(w), w.digests, {}, {}, {}, {name});
    assert name != rpm.source;
    assert rpm.source in state.inputs && state.inputs[rpm.source] == rpm.builtAt && state.failed == map[];
    SettledMeansUnchanged(state, w.digests, retry);
  }

  /** Pruning `foo` deletes the RPM of `foo-bar`. */
  lemma PruneTakesTheNeighbour(retry: bool)
    ensures LosesItsRpm("foo-bar-1.0-1.hum1.bfin.x86_64.rpm", P.Rpm("foo-bar", "1.0-1.hum1.bfin", "d"), "foo", retry)
  {
    hide LosesItsRpm;
    NeighbourLosesItsRpm("foo-bar-1.0-1.hum1.bfin.x86_64.rpm", P.Rpm("foo-bar", "1.0-1.hum1.bfin", "d"), "foo", retry);
  }

  /** A first build of `n`, whose RPMs are `files`. */
  function FirstBuild(n: Name, files: set<P.Path>, digest: Digest): Publication {
    Publication({n}, map f | f in files :: P.Rpm(n, "78.3-1.hum1.bfin", digest), {}, "success", true, false, {})
  }

  /** A package is built on an empty image: it is recorded with no RPM there, and no later run builds it. */
  ghost predicate Vanishes(n: Name, files: set<P.Path>, digest: Digest, key: Build -> Key, owner: P.Path -> Name,
                           retry: bool) {
    var w := World(map[], None, map[n := digest]);
    var next := Publish(w, {}, FirstBuild(n, files, digest));
    && Sound(w, key, owner)
    && next == World(map[], Some(State(map[n := digest], map[])), w.digests)
    && !Backed(next) && Changed(next.recorded.value, next.digests, retry) == ({}, {})
  }

  lemma FirstBuildAccepted(n: Name, files: set<P.Path>, digest: Digest)
    requires files != {} && forall f | f in files :: !P.IsBootstrap(f)
    ensures var p := FirstBuild(n, files, digest);
      MayPublish(p) && P.Publishable(p.everything) == p.everything && AcceptedBy(p) == ReplacedBy(p) == {n}
      && FailedBy(p) == {}
  {
    hide P.IsBootstrap, P.IsBootstrapRecipe;
    var p := FirstBuild(n, files, digest);
    assert P.Publishable(p.everything) == p.everything;
    var f :| f in files;
    assert P.Sources(p.everything)[f] == n;
    assert P.Sources(p.everything).Values == {n};
  }

  lemma MergedOne(seed: State, digests: map<Name, Digest>, trusted: set<Name>, n: Name)
    requires digests.Keys == {n} && seed.inputs.Keys <= {n} && seed.failed == map[]
    ensures Merged(seed, digests, trusted, {n}, {}, {}) == State(map[n := digests[n]], map[])
  {
  }

  lemma FirstBuildLost(n: Name, files: set<P.Path>, digest: Digest)
    requires files != {} && forall f | f in files :: !P.IsBootstrap(f) && P.Swept(f)
    ensures Publish(World(map[], None, map[n := digest]), {}, FirstBuild(n, files, digest))
         == World(map[], Some(State(map[n := digest], map[])), map[n := digest])
  {
    FirstBuildAccepted(n, files, digest);
    var digests, p := map[n := digest], FirstBuild(n, files, digest);
    MergedOne(EMPTY, digests, {}, n);
    hide P.IsBootstrap, MayPublish, AcceptedBy, ReplacedBy, FailedBy, P.Pruned, P.Kept, P.Swept, P.Publishable, Merged,
        FirstBuild;
    assert p.pruned == {} && p.everything.Keys == files by { PlainFirstBuild(n, files, digest); }
    KeptPruned(P.Candidate(map[], p.everything, {n}), {});
    hide P.PrunedAway;
    assert P.Kept(P.Pruned(P.Candidate(map[], p.everything, {n}), {})) == map[];
  }

  lemma PlainFirstBuild(n: Name, files: set<P.Path>, digest: Digest)
    ensures FirstBuild(n, files, digest).pruned == {} && FirstBuild(n, files, digest).everything.Keys == files
  {
  }

  /** Whatever is built: a package all of whose files the publish job deletes by name is recorded and gone. */
  lemma SweptSourceVanishes(n: Name, files: set<P.Path>, digest: Digest, key: Build -> Key, owner: P.Path -> Name,
                            retry: bool)
    requires files != {} && forall f | f in files :: !P.IsBootstrap(f) && P.Swept(f)
    requires !P.IsBootstrapRecipe(n)
    ensures Vanishes(n, files, digest, key, owner, retry)
  {
    FirstBuildLost(n, files, digest);
    hide P.IsBootstrap, P.IsBootstrapRecipe, P.Swept, Changed, Publish, FirstBuild, Sound;
    var digests := map[n := digest];
    EmptyIsSound(digests, key, owner);
    var next := World(map[], Some(State(digests, map[])), digests);
    SettledMeansUnchanged(next.recorded.value, digests, retry);
    assert !RecordBacked(next, n);
  }

  lemma EmptyIsSound(digests: map<Name, Digest>, key: Build -> Key, owner: P.Path -> Name)
    ensures Sound(World(map[], None, digests), key, owner)
  {
  }

  lemma NoPrefix(s: string, sub: string, c: char)
    requires c in sub && c !in s
    ensures !(sub <= s)
  {
    var i :| 0 <= i < |sub| && sub[i] == c;
    assert i < |s| ==> s[i] != c;
  }

  lemma {:induction false} ContainsOnly(s: string, sub: string, c: char)
    requires c in sub && c !in s
    ensures !P.Contains(s, sub)
    decreases |s|
  {
    NoPrefix(s, sub, c);
    if s != "" { ContainsOnly(s[1..], sub, c); }
  }

  /** The file name of a binary package of `icu`. */
  function IcuFile(lead: string, version: string, arch: string): P.Path {
    lead + version + ".bfin." + arch + ".rpm"
  }

  lemma IcuFileSwept(lead: string, version: string, arch: string)
    requires lead == "icu-" || lead == "libicu-"
    requires '/' !in version && '/' !in arch && 't' !in version && 't' !in arch
    ensures var f := IcuFile(lead, version, arch); !P.IsBootstrap(f) && P.Swept(f)
  {
    hide P.Swept, P.Contains, P.BaseName;
    var f := IcuFile(lead, version, arch);
    NoSlash(f);
    ContainsOnly(f, "-0.bootstrap.", 't');
    P.SweptNames(f);
    assert P.Shaped(f, lead, ".bfin.", ".rpm");
  }

  /** The binary packages of packages/icu/icu.spec. */
  function IcuFiles(version: string, arch: string): set<P.Path> {
    {IcuFile("icu-", version, arch), IcuFile("libicu-", version, arch), IcuFile("libicu-", "devel-" + version, arch),
     IcuFile("libicu-", "doc-" + version, "noarch")}
  }

  lemma IcuFilesSwept(version: string, arch: string)
    requires '/' !in version && '/' !in arch && 't' !in version && 't' !in arch
    ensures forall f | f in IcuFiles(version, arch) :: !P.IsBootstrap(f) && P.Swept(f)
  {
    hide IcuFile, P.Swept, P.IsBootstrap;
    IcuFileSwept("icu-", version, arch);
    IcuFileSwept("libicu-", version, arch);
    IcuFileSwept("libicu-", "devel-" + version, arch);
    IcuFileSwept("libicu-", "doc-" + version, "noarch");
  }

  /** The inventory's `icu`: built, recorded, deleted, and never built again. */
  lemma IcuVanishes(digest: Digest, key: Build -> Key, owner: P.Path -> Name, retry: bool)
    ensures Vanishes("icu", IcuFiles("78.3-1.hum1", "x86_64"), digest, key, owner, retry)
  {
    IcuFilesSwept("78.3-1.hum1", "x86_64");
    var files := IcuFiles("78.3-1.hum1", "x86_64");
    assert IcuFile("icu-", "78.3-1.hum1", "x86_64") in files;
    hide Vanishes, IcuFile, IcuFiles, P.Swept, P.IsBootstrap;
    SweptSourceVanishes("icu", files, digest, key, owner, retry);
  }

  /** Pruning a name the inventory still carries: the next run builds it again, and the one after that prunes again. */
  lemma RetryNeverSettles(retry: bool)
    ensures var w := World(map[], Some(State(map["foo" := "d"], map[])), map["foo" := "d"]);
      var next := Publish(w, {}, PruneOnly("foo"));
      && Changed(w.recorded.value, w.digests, retry) == ({}, {})
      && next.recorded.Some? && "foo" in Changed(next.recorded.value, next.digests, retry).0
  {
    hide Publish, Changed, IsMerge;
    var w := World(map[], Some(State(map["foo" := "d"], map[])), map["foo" := "d"]);
    PruneAlone(w, PruneOnly("foo"));
    SettledMeansUnchanged(w.recorded.value, w.digests, retry);
    var state := Merged(Seed(w), w.digests, {}, {}, {}, {"foo"});
    MissingMeansChanged(state, w.digests, retry, "foo");
  }

  lemma {:induction false} NoSlash(path: string)
    requires '/' !in path
    ensures P.BaseName(path) == path
  {
    if path != "" {
      NoSlash(path[..|path| - 1]);
      assert path[|path| - 1] in path;
    }
  }

  /** Two bootstrap recipes, `path` built by the second alone; some pruning makes the publication go out. */
  function HalfFailed(path: P.Path, failed: Name, done: Name, source: Name, gone: Name): Publication {
    var rpm := P.Rpm(source, "0.14.0-0.bootstrap.hum1.bfin", "e");
    Publication({failed, done}, map[path := rpm], {}, "success", true, false, {gone})
  }

  lemma HalfFailedIsDone(path: P.Path, failed: Name, done: Name, source: Name, gone: Name)
    requires P.IsBootstrap(path) && P.IsBootstrapRecipe(failed) && P.IsBootstrapRecipe(done)
    ensures var p := HalfFailed(path, failed, done, source, gone);
      MayPublish(p) && AcceptedBy(p) == {} && ReplacedBy(p) == {failed, done} && FailedBy(p) == {}
  {
    hide P.IsBootstrap, P.IsBootstrapRecipe;
    var p := HalfFailed(path, failed, done, source, gone);
    assert path in p.everything && P.Publishable(p.everything) == map[];
    assert AcceptedBy(p) == {} && |p.pruned| == 1;
  }

  /** Of two bootstrap recipes one fails: it is recorded as built all the same, and no later run builds it. */
  ghost predicate Forgets(path: P.Path, failed: Name, done: Name, source: Name, gone: Name, retry: bool) {
    var p, digests := HalfFailed(path, failed, done, source, gone), map[failed := "d", done := "e"];
    var next := Publish(World(map[], None, digests), {}, p);
    && P.MadeBy(p.everything, map[path := done])
    && next.recorded.Some? && Changed(next.recorded.value, digests, retry) == ({}, {})
  }

  lemma FailedBootstrapForgotten(path: P.Path, failed: Name, done: Name, source: Name, gone: Name, retry: bool)
    requires P.IsBootstrap(path) && P.IsBootstrapRecipe(failed) && P.IsBootstrapRecipe(done) && failed != done
    requires gone !in {failed, done}
    ensures Forgets(path, failed, done, source, gone, retry)
  {
    var p, digests := HalfFailed(path, failed, done, source, gone), map[failed := "d", done := "e"];
    hide P.IsBootstrap, P.IsBootstrapRecipe, Changed, MayPublish, AcceptedBy, ReplacedBy, FailedBy, P.Pruned,
        P.Kept, P.Candidate;
    HalfFailedIsDone(path, failed, done, source, gone);
    var next := Publish(World(map[], None, digests), {}, p);
    SettledMeansUnchanged(next.recorded.value, digests, retry);
  }

  lemma BootstrapFile(lead: string, rest: string)
    requires '/' !in lead && '/' !in rest
    ensures P.IsBootstrap(lead + "-0.bootstrap." + rest)
  {
    NoSlash(lead + "-0.bootstrap." + rest);
    P.ContainsAfter(lead, "-0.bootstrap.", rest);
  }

  lemma BootstrapRecipe(stem: Name)
    ensures P.IsBootstrapRecipe(stem + "-bootstrap")
  {
  }

  lemma FailedBootstrapExample(retry: bool)
    ensures Forgets("malcontent-libs-0.14.0" + "-0.bootstrap." + "hum1.bfin.x86_64.rpm", "gjs" + "-bootstrap",
                    "malcontent" + "-bootstrap", "malcontent", "retired", retry)
  {
    BootstrapFile("malcontent-libs-0.14.0", "hum1.bfin.x86_64.rpm");
    BootstrapRecipe("gjs");
    BootstrapRecipe("malcontent");
    assert ("gjs" + "-bootstrap")[0] == 'g' && ("malcontent" + "-bootstrap")[0] == 'm' && "retired"[0] == 'r';
    hide Forgets, P.IsBootstrap, P.IsBootstrapRecipe;
    FailedBootstrapForgotten("malcontent-libs-0.14.0" + "-0.bootstrap." + "hum1.bfin.x86_64.rpm", "gjs" + "-bootstrap",
                             "malcontent" + "-bootstrap", "malcontent", "retired", retry);
  }
}
