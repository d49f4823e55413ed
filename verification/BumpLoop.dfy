/**
 The loop of .github/workflows/bump-upstream-gate.yml around tools/bump_gate.py:
 plan, build, decide, and, when only bumped packages failed, hold them and gate
 the rest again on a new commit over the same base.
 */
module BumpLoop {
  import opened Common
  import opened Ordering
  import opened BumpGate

  // ------------------------------------------------------------------ the plan

  predicate Allowed(p: Path) {
    p == LOCK || p == HOLDS || p == MULTIMEDIA_REPORT || (|p| > 1 && p[0] == PACKAGES)
  }

  predicate AllAllowed(paths: set<Path>) {
    forall p | p in paths :: Allowed(p)
  }

  datatype Refusal = Disallowed | HoldsUnreadable | ReviewOnlyMoved | NotInInventory | NothingToGate

  datatype PlanResult = Packages(names: set<Name>) | HoldsOnly | Refused(why: Refusal)

  /** `_cli_plan` */
  function Plan(base: Commit, head: Commit): PlanResult {
    var heads, bases := LocksOf(head.lock), LocksOf(base.lock);
    var names := BumpOf(base, head);
    if !AllAllowed(Diff(base, head)) then Refused(Disallowed)
    else if head.holds.Unreadable? then Refused(HoldsUnreadable)
    else if Moved(bases, heads) * head.reviewOnly != {} then Refused(ReviewOnlyMoved)
    else if !(names <= heads.Keys) then Refused(NotInInventory)
    else if names != {} then Packages(names)
    else if HOLDS in Diff(base, head) && Diff(base, head) <= {HOLDS, LOCK} && head.lock == base.lock then HoldsOnly
    else Refused(NothingToGate)
  }

  // ---------------------------------------------------------- what a trim leaves

  lemma {:induction false} NamedByKey(packages: seq<Entry>)
    ensures forall n | n in ByName(packages) :: ByName(packages)[n].name == n
  {
    if packages != [] { NamedByKey(packages[..|packages| - 1]); }
  }

  lemma ByNameAppend(packages: seq<Entry>, e: Entry)
    ensures ByName(packages + [e]) == ByName(packages)[e.name := e]
  {
    assert (packages + [e])[..|packages|] == packages;
  }

  /** What `LocksTrimmed` says of one name. */
  predicate TrimmedAt(after: map<Name, Entry>, head: map<Name, Entry>, base: map<Name, Entry>, held: set<Name>,
                      n: Name) {
    && (n in after <==> n in head && (n in held ==> n in base))
    && (n in after ==> after[n] == if n in held then base[n] else head[n])
  }

  lemma TrimmedStep(after: map<Name, Entry>, head: map<Name, Entry>, base: map<Name, Entry>, held: set<Name>, n: Name,
                    e: Entry)
    requires TrimmedAt(after, head, base, held, n)
    ensures e.name !in held ==> TrimmedAt(after[e.name := e], head[e.name := e], base, held, n)
    ensures e.name in held && e.name in base && base[e.name].name == e.name ==>
              TrimmedAt(after[e.name := base[e.name]], head[e.name := e], base, held, n)
    ensures e.name in held && e.name !in base ==> TrimmedAt(after, head[e.name := e], base, held, n)
  {
  }

  /** The trimmed lock: a held package has the base's entry or none, any other the head's. */
  lemma {:induction false} LocksTrimmed(packages: seq<Entry>, base: map<Name, Entry>, held: set<Name>, n: Name)
    requires forall m | m in base :: base[m].name == m
    ensures TrimmedAt(ByName(TrimmedPackages(packages, base, held)), ByName(packages), base, held, n)
  {
    if packages != [] {
      hide ByName, TrimmedAt;
      var k := |packages| - 1;
      LocksTrimmed(packages[..k], base, held, n);
      var before, e := TrimmedPackages(packages[..k], base, held), packages[k];
      TrimmedStep(ByName(before), ByName(packages[..k]), base, held, n, e);
      assert before + [] == before && packages[..k] + [e] == packages;
      ByNameAppend(packages[..k], e);
      ByNameAppend(before, e);
      if e.name in base { ByNameAppend(before, base[e.name]); }
    }
  }

  lemma TrimMoves(base: map<Name, Entry>, head: map<Name, Entry>, after: map<Name, Entry>, held: set<Name>)
    requires held <= head.Keys
    requires forall n :: TrimmedAt(after, head, base, held, n)
    ensures Moved(base, after) == Moved(base, head) - held
    ensures base.Keys - after.Keys == base.Keys - head.Keys
    ensures base.Keys - head.Keys !! held
    ensures head.Keys - held <= after.Keys
  {
    forall n ensures (n in after <==> n in head && (n in held ==> n in base))
              && (n in after ==> after[n] == if n in held then base[n] else head[n]) {
      assert TrimmedAt(after, head, base, held, n);
    }
  }

  /** A trimmed path differs from the base just when it did and no held directory owns it. */
  lemma TrimFilesDiff(base: map<Path, string>, head: map<Path, string>, held: set<Name>, p: Path)
    ensures p in FilesDiff(base, TrimmedFiles(head, base, held)) <==>
              if InHeldRecipe(p, held) then |p| == 2 && p in base else p in FilesDiff(base, head)
  {
  }

  lemma TrimDiffAt(base: Commit, head: Commit, held: set<Name>, run: string, p: Path, n: Name)
    requires Trim(base, head, held, run).Trimmed? && InRecipe(p, n)
    ensures p in Diff(base, Trim(base, head, held, run).commit) <==> p in Diff(base, head) && n !in held
  {
    hide TrimmedPackages, TrimmedHolds, ByName, LocksOf, FilesDiff, TrimmedFiles;
    TrimFilesDiff(base.files, head.files, held, p);
  }

  lemma TrimTouches(base: Commit, head: Commit, held: set<Name>, run: string)
    requires Trim(base, head, held, run).Trimmed?
    ensures Touched(Diff(base, Trim(base, head, held, run).commit)) == Touched(Diff(base, head)) - held
  {
    hide Diff, Trim;
    var c := Trim(base, head, held, run).commit;
    var before, after := Touched(Diff(base, head)), Touched(Diff(base, c));
    forall n ensures n in after <==> n in before - held {
      if n in after {
        var p :| p in Diff(base, c) && InRecipe(p, n);
        TrimDiffAt(base, head, held, run, p, n);
      }
      if n in before - held {
        var p :| p in Diff(base, head) && InRecipe(p, n);
        TrimDiffAt(base, head, held, run, p, n);
      }
    }
  }

  /** A trim makes the next bump exactly the old one without the held packages. */
  lemma TrimBumped(base: Commit, head: Commit, held: set<Name>, run: string)
    requires Trim(base, head, held, run).Trimmed?
    ensures var c := Trim(base, head, held, run).commit;
      && BumpOf(base, c) == BumpOf(base, head) - held
      && Moved(LocksOf(base.lock), LocksOf(c.lock)) == Moved(LocksOf(base.lock), LocksOf(head.lock)) - held
      && LocksOf(head.lock).Keys - held <= LocksOf(c.lock).Keys
      && forall n :: TrimmedAt(LocksOf(c.lock), LocksOf(head.lock), LocksOf(base.lock), held, n)
  {
    var c := Trim(base, head, held, run).commit;
    TrimTouches(base, head, held, run);
    if base.lock.Some? { NamedByKey(base.lock.value.packages); }
    forall n ensures TrimmedAt(LocksOf(c.lock), LocksOf(head.lock), LocksOf(base.lock), held, n) {
      LocksTrimmed(head.lock.value.packages, LocksOf(base.lock), held, n);
    }
    TrimMoves(LocksOf(base.lock), LocksOf(head.lock), LocksOf(c.lock), held);
  }

  // ------------------------------------------------------------------- the loop

  /** How one pull request ends: its last commit, what it held on the way, its builds. */
  datatype Ending = Ending(merged: bool, commit: Commit, held: set<Name>, builds: nat)

  /** The branches the loop accepts a pull request on. */
  datatype Branch = UpstreamSources | RawhideImports

  /**
   A hold is pushed to `bump/upstream-sources` and gated there, whatever branch was gated: a pull request on
   `bump/rawhide-imports` keeps its commit, and the next plan finds another branch and does nothing.
   `reports(i)` is what build `i` reports, `runs(i)` its address.
   */
  function Gate(branch: Branch, base: Commit, head: Commit, reports: nat -> Report, runs: nat -> string, i: nat): Ending
    decreases |BumpOf(base, head)|
  {
    match Plan(base, head)
    case Refused(_) => Ending(false, head, {}, i)
    case HoldsOnly => Ending(HoldsOnlyOk(Some([]), reports(i)), head, {}, i)
    case Packages(names) =>
      var wanted := Some(Sorted(names));
      var held := Holdable(wanted, reports(i));
      if Proved(wanted, reports(i)) then Ending(true, head, {}, i + 1)
      else if held == {} || Trim(base, head, held, runs(i)).ValueError? || branch.RawhideImports? then
        Ending(false, head, {}, i + 1)
      else
        HeldShrinks(base, head, names, reports(i), runs(i));
        var rest := Gate(branch, base, Trim(base, head, held, runs(i)).commit, reports, runs, i + 1);
        rest.(held := rest.held + held)
  }

  /** Every hold takes at least one package out of the bump. */
  lemma HeldShrinks(base: Commit, head: Commit, names: set<Name>, r: Report, run: string)
    requires Plan(base, head) == Packages(names)
    requires Holdable(Some(Sorted(names)), r) != {}
    ensures Trim(base, head, Holdable(Some(Sorted(names)), r), run).Trimmed?
    ensures BumpOf(base, Trim(base, head, Holdable(Some(Sorted(names)), r), run).commit) < BumpOf(base, head)
    ensures |BumpOf(base, Trim(base, head, Holdable(Some(Sorted(names)), r), run).commit)| < |BumpOf(base, head)|
  {
    var held := Holdable(Some(Sorted(names)), r);
    HoldableMeaning(Some(Sorted(names)), r);
    hide Holdable, Proved, BumpOf, Diff, Moved;
    assert held <= names == BumpOf(base, head) <= LocksOf(head.lock).Keys;
    assert head.lock.Some?;
    TrimBumped(base, head, held, run);
    var n :| n in held;
    Smaller(BumpOf(base, Trim(base, head, held, run).commit), BumpOf(base, head));
  }

  lemma {:induction false} Smaller(a: set<Name>, b: set<Name>)
    requires a < b
    ensures |a| < |b|
  {
    assert b == a + (b - a);
    assert b - a != {};
  }

  /** `commit` is `head` with exactly the packages of `held` taken back to `base` and recorded as holds. */
  ghost predicate OnlyHeldBack(base: Commit, head: Commit, held: set<Name>, commit: Commit) {
    && (forall n :: TrimmedAt(LocksOf(commit.lock), LocksOf(head.lock), LocksOf(base.lock), held, n))
    && commit.files == TrimmedFiles(head.files, base.files, held)
    && commit.reviewOnly == head.reviewOnly && commit.reviewOnlyText == head.reviewOnlyText
    && held <= LocksOf(head.lock).Keys
    && (held != {} ==> HoldsRecord(head, held, commit))
    && (held == {} ==> commit == head)
  }

  ghost predicate HoldsRecord(head: Commit, held: set<Name>, commit: Commit)
    requires held <= LocksOf(head.lock).Keys
  {
    && head.holds.Holds? && commit.holds.Holds?
    && commit.holds.holds.Keys == head.holds.holds.Keys + held
    && forall n | n in commit.holds.holds ::
         if n in held then commit.holds.holds[n].version == LocksOf(head.lock)[n].version
         else commit.holds.holds[n] == head.holds.holds[n]
  }

  lemma TrimHoldsBack(base: Commit, head: Commit, held: set<Name>, run: string)
    requires Trim(base, head, held, run).Trimmed? && held != {}
    ensures OnlyHeldBack(base, head, held, Trim(base, head, held, run).commit)
  {
    hide TrimmedFiles, TrimmedPackages, TrimmedHolds, HoldsRecord, TrimmedAt, LocksOf, BumpOf, Moved;
    TrimBumped(base, head, held, run);
    TrimRecords(base, head, held, run);
  }

  lemma TrimRecords(base: Commit, head: Commit, held: set<Name>, run: string)
    requires Trim(base, head, held, run).Trimmed?
    ensures held <= LocksOf(head.lock).Keys && HoldsRecord(head, held, Trim(base, head, held, run).commit)
  {
    hide TrimmedFiles, TrimmedPackages, LocksOf;
  }

  lemma HoldBackTwice(base: Commit, head: Commit, first: set<Name>, mid: Commit, second: set<Name>, end: Commit)
    requires OnlyHeldBack(base, head, first, mid) && OnlyHeldBack(base, mid, second, end)
    requires first != {} && first !! second
    ensures OnlyHeldBack(base, head, first + second, end)
  {
    TrimFilesTwice(head.files, base.files, first, second);
    hide TrimmedFiles, LocksOf;
    forall n ensures TrimmedAt(LocksOf(end.lock), LocksOf(head.lock), LocksOf(base.lock), first + second, n) {
      assert TrimmedAt(LocksOf(mid.lock), LocksOf(head.lock), LocksOf(base.lock), first, n);
      assert TrimmedAt(LocksOf(end.lock), LocksOf(mid.lock), LocksOf(base.lock), second, n);
    }
    assert second <= LocksOf(head.lock).Keys by {
      forall n | n in second ensures n in LocksOf(head.lock) {
        assert TrimmedAt(LocksOf(mid.lock), LocksOf(head.lock), LocksOf(base.lock), first, n);
      }
    }
    assert HoldsRecord(head, first + second, end) by {
      forall n | n in second ensures LocksOf(mid.lock)[n] == LocksOf(head.lock)[n] {
        assert TrimmedAt(LocksOf(mid.lock), LocksOf(head.lock), LocksOf(base.lock), first, n);
      }
      if second == {} { assert first + second == first; }
    }
  }

  ghost predicate FailedIn(n: Name, reports: nat -> Report, i: nat, j: nat) {
    exists k: nat | i <= k < j :: n in Wanted(reports(k).failed)
  }

  /** The last plan and report are what a merge needs. */
  predicate Earned(base: Commit, e: Ending, reports: nat -> Report, i: nat) {
    match Plan(base, e.commit)
    case Refused(_) => false
    case HoldsOnly => reports(e.builds).result == "skipped"
    case Packages(names) => e.builds > i && Proved(Some(Sorted(names)), reports(e.builds - 1))
  }

  /**
   What any gating of a pull request ends in: after at most one build per bumped package, the pull request
   less exactly the packages held; each of those failed in one of the builds; and a merge only of what the
   last build proved.
   */
  ghost predicate EndsWell(base: Commit, head: Commit, reports: nat -> Report, i: nat, e: Ending) {
    && OnlyHeldBack(base, head, e.held, e.commit)
    && BumpOf(base, e.commit) == BumpOf(base, head) - e.held
    && e.held <= BumpOf(base, head)
    && i <= e.builds <= i + |BumpOf(base, head)|
    && (forall n | n in e.held :: FailedIn(n, reports, i, e.builds))
    && (e.merged ==> Earned(base, e, reports, i))
  }

  lemma EndsWellAfterHold(base: Commit, head: Commit, held: set<Name>, c: Commit, reports: nat -> Report, i: nat,
                          rest: Ending)
    requires held != {} && held <= BumpOf(base, head) && held <= Wanted(reports(i).failed)
    requires OnlyHeldBack(base, head, held, c) && BumpOf(base, c) == BumpOf(base, head) - held
    requires EndsWell(base, c, reports, i + 1, rest)
    ensures EndsWell(base, head, reports, i, rest.(held := rest.held + held))
  {
    hide OnlyHeldBack, BumpOf, Earned, FailedIn, Wanted;
    HoldBackTwice(base, head, held, c, rest.held, rest.commit);
    assert rest.held + held == held + rest.held;
    EarnedEarlier(base, rest, rest.held + held, reports, i);
    assert |BumpOf(base, c)| < |BumpOf(base, head)| by {
      var n :| n in held;
      assert n in BumpOf(base, head);
      Smaller(BumpOf(base, c), BumpOf(base, head));
    }
    forall n | n in rest.held + held ensures FailedIn(n, reports, i, rest.builds) {
      FailedEarlier(n, reports, i, rest.builds);
    }
  }

  lemma EarnedEarlier(base: Commit, e: Ending, held: set<Name>, reports: nat -> Report, i: nat)
    ensures Earned(base, e, reports, i + 1) ==> Earned(base, e.(held := held), reports, i)
  {
    hide Plan, Proved;
  }

  lemma FailedEarlier(n: Name, reports: nat -> Report, i: nat, j: nat)
    requires i < j
    ensures FailedIn(n, reports, i + 1, j) || n in Wanted(reports(i).failed) ==> FailedIn(n, reports, i, j)
  {
  }

  /** The loop keeps `EndsWell`, however the builds report. */
  lemma {:induction false} GateEnds(branch: Branch, base: Commit, head: Commit, reports: nat -> Report,
                                    runs: nat -> string, i: nat)
    ensures EndsWell(base, head, reports, i, Gate(branch, base, head, reports, runs, i))
    ensures branch.RawhideImports? ==>
              Gate(branch, base, head, reports, runs, i).commit == head
                  && Gate(branch, base, head, reports, runs, i).builds <= i + 1
    decreases |BumpOf(base, head)|
  {
    NothingHeld(base, head);
    PlanNames(base, head);
    EndsAtOnce(base, head, reports, i);
    hide OnlyHeldBack, BumpOf, Proved, Plan, Trim, Holdable, EndsWell;
    if Plan(base, head).Packages? {
      var names := Plan(base, head).names;
      var held := Holdable(Some(Sorted(names)), reports(i));
      if !Proved(Some(Sorted(names)), reports(i)) && held != {} && branch.UpstreamSources? {
        HeldShrinks(base, head, names, reports(i), runs(i));
        HoldableMeaning(Some(Sorted(names)), reports(i));
        assert Wanted(Some(Sorted(names))) == names;
        var c := Trim(base, head, held, runs(i)).commit;
        GateEnds(branch, base, c, reports, runs, i + 1);
        TrimHoldsBack(base, head, held, runs(i));
        TrimBumped(base, head, held, runs(i));
        EndsWellAfterHold(base, head, held, c, reports, i, Gate(branch, base, c, reports, runs, i + 1));
      }
    }
  }

  lemma EndsAtOnce(base: Commit, head: Commit, reports: nat -> Report, i: nat)
    ensures Plan(base, head).Refused? ==> EndsWell(base, head, reports, i, Ending(false, head, {}, i))
    ensures Plan(base, head).HoldsOnly? ==>
              EndsWell(base, head, reports, i, Ending(HoldsOnlyOk(Some([]), reports(i)), head, {}, i))
    ensures Plan(base, head).Packages? ==>
              && EndsWell(base, head, reports, i, Ending(false, head, {}, i + 1))
              && (Proved(Some(Sorted(Plan(base, head).names)), reports(i)) ==>
                    EndsWell(base, head, reports, i, Ending(true, head, {}, i + 1)))
  {
    NothingHeld(base, head);
    PlanNames(base, head);
    hide OnlyHeldBack, BumpOf, Proved, Plan;
  }

  lemma PlanNames(base: Commit, head: Commit)
    ensures Plan(base, head).Packages? ==> Plan(base, head).names == BumpOf(base, head) && |BumpOf(base, head)| > 0
    ensures Plan(base, head).HoldsOnly? ==>
              BumpOf(base, head) == {} && HOLDS in Diff(base, head) && Diff(base, head) <= {HOLDS, LOCK}
                  && head.lock == base.lock
    ensures !Plan(base, head).Refused? ==> Acceptable(base, head)
  {
    hide BumpOf, Diff, Moved, LocksOf;
  }

  /** None of the plan's refusals but the last. */
  predicate Acceptable(base: Commit, head: Commit) {
    && AllAllowed(Diff(base, head))
    && head.holds.Holds?
    && Moved(LocksOf(base.lock), LocksOf(head.lock)) * head.reviewOnly == {}
    && BumpOf(base, head) <= LocksOf(head.lock).Keys
  }

  lemma PlanAccepts(base: Commit, head: Commit)
    requires Acceptable(base, head)
    ensures Plan(base, head) ==
      if BumpOf(base, head) != {} then Packages(BumpOf(base, head))
      else if HOLDS in Diff(base, head) && Diff(base, head) <= {HOLDS, LOCK} && head.lock == base.lock then HoldsOnly
      else Refused(NothingToGate)
  {
    hide BumpOf, Diff, Moved, LocksOf;
  }

  lemma NothingHeld(base: Commit, head: Commit)
    ensures OnlyHeldBack(base, head, {}, head)
  {
    TrimNoFiles(head.files, base.files);
  }

  /**
   A merged pull request: nothing outside what a bump may change, no review-only package moved, and either
   every package still bumped was selected by a successful build in which nothing failed, or nothing is
   bumped and only the holds differ from the base.
   */
  lemma MergeIsEarned(branch: Branch, base: Commit, head: Commit, reports: nat -> Report, runs: nat -> string)
    requires Gate(branch, base, head, reports, runs, 0).merged
    ensures var e := Gate(branch, base, head, reports, runs, 0);
      && AllAllowed(Diff(base, e.commit))
      && e.commit.holds.Holds?
      && Moved(LocksOf(base.lock), LocksOf(e.commit.lock)) !! base.reviewOnly
      && (BumpOf(base, e.commit) != {} ==>
            && e.builds > 0
            && reports(e.builds - 1).result == "success" && reports(e.builds - 1).failed == Some([])
            && BumpOf(base, e.commit) <= Wanted(reports(e.builds - 1).buildList))
      && (BumpOf(base, e.commit) == {} ==>
            && e.commit.lock == base.lock && HOLDS in Diff(base, e.commit) && Diff(base, e.commit) <= {HOLDS, LOCK}
            && reports(e.builds).result == "skipped")
  {
    GateEnds(branch, base, head, reports, runs, 0);
    EarnedMeans(base, Gate(branch, base, head, reports, runs, 0), reports);
    hide Gate, Plan, Earned, OnlyHeldBack, BumpOf, Moved, LocksOf, Diff, AllAllowed, Proved;
  }

  lemma EarnedMeans(base: Commit, e: Ending, reports: nat -> Report)
    requires Earned(base, e, reports, 0)
    ensures Acceptable(base, e.commit) && base.reviewOnly == e.commit.reviewOnly
    ensures BumpOf(base, e.commit) != {} ==>
              && e.builds > 0
              && reports(e.builds - 1).result == "success" && reports(e.builds - 1).failed == Some([])
              && BumpOf(base, e.commit) <= Wanted(reports(e.builds - 1).buildList)
    ensures BumpOf(base, e.commit) == {} ==>
              && e.commit.lock == base.lock && HOLDS in Diff(base, e.commit) && Diff(base, e.commit) <= {HOLDS, LOCK}
              && reports(e.builds).result == "skipped"
  {
    PlanNames(base, e.commit);
    hide Plan, BumpOf, Diff, LocksOf, Moved;
    ReviewListKept(base, e.commit);
    if Plan(base, e.commit).Packages? {
      assert Elements(Sorted(Plan(base, e.commit).names)) == Plan(base, e.commit).names;
    }
  }

  lemma ReviewListKept(base: Commit, head: Commit)
    requires AllAllowed(Diff(base, head))
    ensures base.reviewOnly == head.reviewOnly
  {
    assert !Allowed(REVIEW_ONLY);
    assert REVIEW_ONLY !in Diff(base, head);
  }

  // -------------------------------------------------------- the same, on the commits

  /** The lock's entry of `n`: the last of its name, if any. */
  ghost predicate EntryIs(lock: Option<Document>, n: Name, e: Option<Entry>) {
    match e
    case None => lock.None? || forall i | 0 <= i < |lock.value.packages| :: lock.value.packages[i].name != n
    case Some(x) =>
      && lock.Some? && x.name == n
      && exists i :: && 0 <= i < |lock.value.packages| && lock.value.packages[i] == x
                     && forall j | i < j < |lock.value.packages| :: lock.value.packages[j].name != n
  }

  /** The two commits have different entries of `n`, or one has none. */
  ghost predicate EntryDiffers(base: Commit, head: Commit, n: Name) {
    exists x, y :: EntryIs(base.lock, n, x) && EntryIs(head.lock, n, y) && x != y
  }

  /** The two commits differ in a file. */
  ghost predicate FileDiffers(base: Commit, head: Commit, p: Path) {
    || (p in base.files && p !in head.files) || (p !in base.files && p in head.files)
    || (p in base.files && p in head.files && base.files[p] != head.files[p])
  }

  /** The two commits differ in a file of the recipe of `n`. */
  ghost predicate RecipeDiffers(base: Commit, head: Commit, n: Name) {
    exists p :: |p| >= 3 && p[0] == "packages" && p[1] == n && FileDiffers(base, head, p)
  }

  ghost predicate Changes(base: Commit, head: Commit, n: Name) {
    EntryDiffers(base, head, n) || RecipeDiffers(base, head, n)
  }

  /** The last entry of `n` in the list stands at `i`. */
  ghost predicate LastAt(packages: seq<Entry>, n: Name, i: nat) {
    && i < |packages| && packages[i].name == n && forall j | i < j < |packages| :: packages[j].name != n
  }

  lemma LastAtNext(front: seq<Entry>, x: Entry, n: Name, i: nat)
    requires x.name != n
    ensures LastAt(front + [x], n, i) <==> LastAt(front, n, i)
  {
    var packages := front + [x];
    assert packages[|front|] == x;
    assert forall j | 0 <= j < |front| :: packages[j] == front[j];
  }

  /** What a lock file says of `n`. */
  lemma {:induction false} LastEntry(packages: seq<Entry>, n: Name)
    ensures n in ByName(packages) ==>
              exists i: nat :: LastAt(packages, n, i) && packages[i] == ByName(packages)[n]
    ensures n !in ByName(packages) ==> forall i | 0 <= i < |packages| :: packages[i].name != n
    decreases |packages|
  {
    if packages != [] {
      var k := |packages| - 1;
      var front := packages[..k];
      LastEntry(front, n);
      if packages[k].name == n {
        assert LastAt(packages, n, k) && packages[k] == ByName(packages)[n];
      } else if n in ByName(front) {
        var i: nat :| LastAt(front, n, i) && front[i] == ByName(front)[n];
        assert packages == front + [packages[k]];
        LastAtNext(front, packages[k], n, i);
        assert packages[i] == ByName(packages)[n];
      } else {
        forall i | 0 <= i < |packages| ensures packages[i].name != n { if i < k { assert packages[i] == front[i]; } }
      }
    }
  }

  lemma EntryOf(lock: Option<Document>, n: Name, e: Option<Entry>)
    ensures EntryIs(lock, n, e) <==> e == if n in LocksOf(lock) then Some(LocksOf(lock)[n]) else None
  {
    if lock.Some? {
      var packages := lock.value.packages;
      LastEntry(packages, n);
      hide ByName;
      if n in LocksOf(lock) {
        var i: nat :| LastAt(packages, n, i) && packages[i] == LocksOf(lock)[n];
        if e.Some? && EntryIs(lock, n, e) {
          var k :| && 0 <= k < |packages| && packages[k] == e.value
                   && forall j | k < j < |packages| :: packages[j].name != n;
          assert k == i;
        }
      }
    }
  }

  /** A package is bumped exactly when its lock entry or a file of its recipe differs. */
  lemma BumpedIff(base: Commit, head: Commit, n: Name)
    ensures n in BumpOf(base, head) <==> Changes(base, head, n)
  {
    hide EntryIs, LocksOf;
    forall x { EntryOf(base.lock, n, x); }
    forall y { EntryOf(head.lock, n, y); }
    var x := if n in LocksOf(base.lock) then Some(LocksOf(base.lock)[n]) else None;
    var y := if n in LocksOf(head.lock) then Some(LocksOf(head.lock)[n]) else None;
    assert EntryIs(base.lock, n, x) && EntryIs(head.lock, n, y);
    assert n in Touched(Diff(base, head)) <==> RecipeDiffers(base, head, n) by { TouchedIff(base, head, n); }
    hide Touched, RecipeDiffers, Diff;
    assert n in BumpOf(base, head) <==> x != y || n in Touched(Diff(base, head));
  }

  lemma TouchedIff(base: Commit, head: Commit, n: Name)
    ensures n in Touched(Diff(base, head)) <==> RecipeDiffers(base, head, n)
  {
    forall p | |p| > 2 ensures p in Diff(base, head) <==> FileDiffers(base, head, p) {
      assert |LOCK| == |HOLDS| == |REVIEW_ONLY| == 2;
    }
    hide Diff, FileDiffers;
  }

  /** What a bump may change, lock and holds aside. */
  ghost predicate MayChange(p: Path) {
    || (|p| > 1 && p[0] == "packages") || p == ["reports", "multimedia-closure.json"]
    || p == ["config", "upstream-sources.json"] || p == ["config", "bump-holds.json"]
  }

  /** No review-only package has another entry at the head, unless it is gone. */
  ghost predicate ReviewOnlyStays(base: Commit, head: Commit) {
    forall n, x, y: Option<Entry> | n in head.reviewOnly && EntryIs(base.lock, n, x) && EntryIs(head.lock, n, y) ::
      y.None? || x == y
  }

  /** Which pull requests the gate builds, on the commits, and that it builds exactly what differs. */
  lemma PlanOnCommits(base: Commit, head: Commit)
    ensures Plan(base, head).Packages? <==>
      && (forall p | FileDiffers(base, head, p) :: MayChange(p))
      && base.reviewOnly == head.reviewOnly && base.reviewOnlyText == head.reviewOnlyText
      && head.holds.Holds? && ReviewOnlyStays(base, head)
      && (forall n | Changes(base, head, n) :: !EntryIs(head.lock, n, None))
      && (exists n :: Changes(base, head, n))
    ensures Plan(base, head).Packages? ==>
              forall n :: n in Plan(base, head).names <==> Changes(base, head, n)
  {
    hide *;
    PlanNames(base, head);
    if Acceptable(base, head) { PlanAccepts(base, head); }
    AcceptableMeans(base, head);
    AllowedOnCommits(base, head);
    ReviewOnlyIs(base, head);
    ChangesAreBumped(base, head);
  }

  lemma AcceptableMeans(base: Commit, head: Commit)
    ensures Acceptable(base, head) <==>
      && AllAllowed(Diff(base, head)) && head.holds.Holds?
      && Moved(LocksOf(base.lock), LocksOf(head.lock)) * head.reviewOnly == {}
      && BumpOf(base, head) <= LocksOf(head.lock).Keys
  {
    hide AllAllowed, Diff, Moved, LocksOf, BumpOf;
  }

  lemma ChangesAreBumped(base: Commit, head: Commit)
    ensures forall n :: n in BumpOf(base, head) <==> Changes(base, head, n)
    ensures BumpOf(base, head) != {} <==> exists n :: Changes(base, head, n)
    ensures BumpOf(base, head) <= LocksOf(head.lock).Keys <==>
              forall n | Changes(base, head, n) :: !EntryIs(head.lock, n, None)
  {
    forall n ensures n in BumpOf(base, head) <==> Changes(base, head, n) { BumpedIff(base, head, n); }
    forall n ensures EntryIs(head.lock, n, None) <==> n !in LocksOf(head.lock) { EntryOf(head.lock, n, None); }
    hide *;
  }

  lemma AllowedOnCommits(base: Commit, head: Commit)
    ensures AllAllowed(Diff(base, head)) <==>
      && (forall p | FileDiffers(base, head, p) :: MayChange(p))
      && base.reviewOnly == head.reviewOnly && base.reviewOnlyText == head.reviewOnlyText
  {
    assert Allowed(LOCK) && Allowed(HOLDS) && !Allowed(REVIEW_ONLY);
    forall p ensures p in FilesDiff(base.files, head.files) <==> FileDiffers(base, head, p) {}
    forall p ensures Allowed(p) <==> MayChange(p) {}
    hide FileDiffers, MayChange, Allowed, FilesDiff;
    if AllAllowed(Diff(base, head)) {
      assert REVIEW_ONLY !in Diff(base, head);
      forall p | FileDiffers(base, head, p) ensures MayChange(p) { assert p in Diff(base, head); }
    }
  }

  lemma ReviewOnlyIs(base: Commit, head: Commit)
    ensures Moved(LocksOf(base.lock), LocksOf(head.lock)) * head.reviewOnly == {} <==> ReviewOnlyStays(base, head)
  {
    var bases, heads := LocksOf(base.lock), LocksOf(head.lock);
    forall n, x ensures EntryIs(base.lock, n, x) <==> x == Found(bases, n) { EntryOf(base.lock, n, x); }
    forall n, y ensures EntryIs(head.lock, n, y) <==> y == Found(heads, n) { EntryOf(head.lock, n, y); }
    hide EntryIs, LocksOf;
    if ReviewOnlyStays(base, head) {
      forall n | n in Moved(bases, heads) ensures n !in head.reviewOnly {
        assert EntryIs(base.lock, n, Found(bases, n)) && EntryIs(head.lock, n, Found(heads, n));
      }
    }
    if Moved(bases, heads) * head.reviewOnly == {} {
      forall n, x, y: Option<Entry> | n in head.reviewOnly && EntryIs(base.lock, n, x) && EntryIs(head.lock, n, y)
        ensures y.None? || x == y
      {
        assert n !in Moved(bases, heads) * head.reviewOnly;
      }
    }
  }

  function Found(locks: map<Name, Entry>, n: Name): Option<Entry> {
    if n in locks then Some(locks[n]) else None
  }

  /**
   On the two commits: whatever differs between the base and a merged commit was built by a build in which nothing
   failed; no review-only package moved; and nothing differs outside recipes, lock, holds and the report.
   */
  lemma MergedIsBuilt(branch: Branch, base: Commit, head: Commit, reports: nat -> Report, runs: nat -> string, n: Name)
    requires Gate(branch, base, head, reports, runs, 0).merged
    ensures var e := Gate(branch, base, head, reports, runs, 0);
      && (Changes(base, e.commit, n) ==>
            && e.builds > 0 && reports(e.builds - 1).result == "success" && reports(e.builds - 1).failed == Some([])
            && reports(e.builds - 1).buildList.Some? && n in reports(e.builds - 1).buildList.value)
      && ReviewOnlyStays(base, e.commit) && base.reviewOnly == e.commit.reviewOnly
      && forall p | FileDiffers(base, e.commit, p) :: MayChange(p)
  {
    MergeIsEarned(branch, base, head, reports, runs);
    GateEnds(branch, base, head, reports, runs, 0);
    var e := Gate(branch, base, head, reports, runs, 0);
    BumpedIff(base, e.commit, n);
    AllowedOnCommits(base, e.commit);
    ReviewOnlyIs(base, e.commit);
    hide *;
    if n in BumpOf(base, e.commit) { WantedListed(reports(e.builds - 1).buildList, n); }
  }

  lemma WantedListed(o: Option<seq<Name>>, n: Name)
    requires n in Wanted(o)
    ensures o.Some? && n in o.value
  {
  }

  /**
   What a gating took back, on the commits: a held package has the base's lock entry, or none where the base has
   none, and the base's recipe; every other entry and every other file below a directory is the pull request's.
   */
  lemma HeldIsTakenBack(branch: Branch, base: Commit, head: Commit, reports: nat -> Report, runs: nat -> string,
                        n: Name, p: Path)
    ensures var e := Gate(branch, base, head, reports, runs, 0);
      && (n in e.held ==> (forall x :: EntryIs(base.lock, n, x) <==> EntryIs(e.commit.lock, n, x)))
      && (n !in e.held ==> (forall x :: EntryIs(head.lock, n, x) <==> EntryIs(e.commit.lock, n, x)))
      && (|p| >= 3 && p[0] == "packages" && p[1] in e.held ==> !FileDiffers(base, e.commit, p))
      && (|p| == 2 && p[0] == "packages" && p[1] in e.held ==> p !in e.commit.files)
      && (!(|p| >= 2 && p[0] == "packages" && p[1] in e.held) ==> !FileDiffers(head, e.commit, p))
  {
    GateEnds(branch, base, head, reports, runs, 0);
    var e := Gate(branch, base, head, reports, runs, 0);
    EndsHeldBack(base, head, reports, e);
    hide *;
    HeldEntry(base, head, e.held, e.commit, n);
    HeldFile(base, head, e.held, e.commit, p);
  }

  lemma HeldEntry(base: Commit, head: Commit, held: set<Name>, commit: Commit, n: Name)
    requires OnlyHeldBack(base, head, held, commit)
    ensures n in held ==> forall x :: EntryIs(base.lock, n, x) <==> EntryIs(commit.lock, n, x)
    ensures n !in held ==> forall x :: EntryIs(head.lock, n, x) <==> EntryIs(commit.lock, n, x)
  {
    assert TrimmedAt(LocksOf(commit.lock), LocksOf(head.lock), LocksOf(base.lock), held, n);
    assert n in held ==> n in LocksOf(head.lock);
    hide OnlyHeldBack, EntryIs, LocksOf;
    forall x ensures EntryIs(if n in held then base.lock else head.lock, n, x) <==> EntryIs(commit.lock, n, x) {
      EntryOf(if n in held then base.lock else head.lock, n, x);
      EntryOf(commit.lock, n, x);
    }
  }

  lemma HeldFile(base: Commit, head: Commit, held: set<Name>, commit: Commit, p: Path)
    requires OnlyHeldBack(base, head, held, commit)
    ensures |p| >= 3 && p[0] == "packages" && p[1] in held ==> !FileDiffers(base, commit, p)
    ensures |p| == 2 && p[0] == "packages" && p[1] in held ==> p !in commit.files
    ensures !(|p| >= 2 && p[0] == "packages" && p[1] in held) ==> !FileDiffers(head, commit, p)
  {
    assert commit.files == TrimmedFiles(head.files, base.files, held);
    hide OnlyHeldBack;
  }

  lemma EndsHeldBack(base: Commit, head: Commit, reports: nat -> Report, e: Ending)
    requires EndsWell(base, head, reports, 0, e)
    ensures OnlyHeldBack(base, head, e.held, e.commit)
  {
    hide OnlyHeldBack, BumpOf, Earned, FailedIn;
  }

  // ------------------------------------------------------- gating again after a trim

  /** Beside the lock and the holds, the pull request changes no file but those of the recipes in `held`. */
  predicate FilesOnlyIn(base: Commit, head: Commit, held: set<Name>) {
    && (forall p | p in FilesDiff(base.files, head.files) - {HOLDS, LOCK} :: InHeldRecipe(p, held))
    && (forall p | p in base.files && |p| == 2 :: !InHeldRecipe(p, held))
  }

  lemma TrimStaysAllowed(base: Commit, head: Commit, held: set<Name>, run: string)
    requires AllAllowed(Diff(base, head))
    requires Trim(base, head, held, run).Trimmed?
    ensures AllAllowed(Diff(base, Trim(base, head, held, run).commit))
  {
    var c := Trim(base, head, held, run).commit;
    forall p | p in Diff(base, c) ensures Allowed(p) {
      if p in FilesDiff(base.files, c.files) {
        TrimFilesDiff(base.files, head.files, held, p);
        assert p !in ConfigDiff(base, c) ==> InHeldRecipe(p, held) || p in Diff(base, head);
      } else {
        assert p == REVIEW_ONLY ==> p in Diff(base, head);
      }
    }
  }

  lemma TrimLeavesFiles(base: Commit, head: Commit, held: set<Name>)
    ensures FilesDiff(base.files, TrimmedFiles(head.files, base.files, held)) <= {HOLDS, LOCK} <==>
        FilesOnlyIn(base, head, held)
  {
    var after := FilesDiff(base.files, TrimmedFiles(head.files, base.files, held));
    forall p
      ensures p in after <==>
                if InHeldRecipe(p, held) then |p| == 2 && p in base.files else p in FilesDiff(base.files, head.files)
    {
      TrimFilesDiff(base.files, head.files, held, p);
    }
    hide TrimmedFiles, FilesDiff, InHeldRecipe;
  }

  /**
   The gate accepts the trimmed commit: it plans the packages that are left. With none left it plans a
   holds-only merge exactly when the lock is the base's again, the holds changed, and no other file did.
   A bump that also carries `MULTIMEDIA_REPORT`, which `Allowed` lets in, is therefore not merged then.
   */
  lemma PlanAfterTrim(base: Commit, head: Commit, held: set<Name>, run: string)
    requires Plan(base, head).Packages? && held <= Plan(base, head).names
    ensures Trim(base, head, held, run).Trimmed?
    ensures var c := Trim(base, head, held, run).commit;
      Plan(base, c) ==
        if held < Plan(base, head).names then Packages(Plan(base, head).names - held)
        else if c.lock == base.lock && HOLDS in Diff(base, c) && FilesOnlyIn(base, head, held) then HoldsOnly
        else Refused(NothingToGate)
  {
    hide *;
    PlanNames(base, head);
    TrimAcceptable(base, head, held, run);
    var c := Trim(base, head, held, run).commit;
    TrimBumped(base, head, held, run);
    TrimLeavesFiles(base, head, held);
    ConfigOnly(base, c);
    PlanAccepts(base, c);
    var names := BumpOf(base, head);
    assert held < names <==> names - held != {} by {
      if names - held == {} {
        forall n | n in names ensures n in held { assert n !in names - held; }
      }
    }
  }

  lemma TrimAcceptable(base: Commit, head: Commit, held: set<Name>, run: string)
    requires Acceptable(base, head) && held <= BumpOf(base, head) != {}
    ensures Trim(base, head, held, run).Trimmed?
    ensures Acceptable(base, Trim(base, head, held, run).commit)
    ensures Trim(base, head, held, run).commit.files == TrimmedFiles(head.files, base.files, held)
  {
    hide BumpOf, Moved, Diff, TrimmedFiles, TrimmedPackages, TrimmedHolds, AllAllowed;
    assert held <= LocksOf(head.lock).Keys;
    TrimBumped(base, head, held, run);
    TrimStaysAllowed(base, head, held, run);
  }

  lemma ConfigOnly(base: Commit, head: Commit)
    requires Acceptable(base, head)
    ensures Diff(base, head) <= {HOLDS, LOCK} <==> FilesDiff(base.files, head.files) <= {HOLDS, LOCK}
  {
    assert REVIEW_ONLY in Diff(base, head) ==> !Allowed(REVIEW_ONLY);
  }

  /** A build of `wanted` in which exactly the `broken` packages fail, reported in full. */
  predicate Honest(r: Report, wanted: set<Name>, broken: set<Name>) {
    && r.buildList.Some? && wanted <= Elements(r.buildList.value)
    && r.failed.Some? && Elements(r.failed.value) == wanted * broken
    && (r.result == "success" || (r.result == "failure" && wanted * broken != {}))
  }

  /** With all of `names` held, the holds alone are merged. */
  predicate HoldsMerge(base: Commit, head: Commit, names: set<Name>, run: string, r: Report) {
    match Trim(base, head, names, run)
    case Trimmed(c) => Plan(base, c).HoldsOnly? && r.result == "skipped"
    case ValueError => false
  }

  /**
   When the same packages break in every build, a pull request on `bump/upstream-sources` is merged after at
   most one trim, holding exactly the broken ones, if some bumped package does not break; when all do, the
   holds alone are, under the condition of `PlanAfterTrim`. One on `bump/rawhide-imports` is merged as it is,
   if and only if nothing breaks.
   */
  lemma OneTrimSuffices(branch: Branch, base: Commit, head: Commit, reports: nat -> Report, runs: nat -> string,
                        broken: set<Name>)
    requires Plan(base, head).Packages?
    requires Honest(reports(0), Plan(base, head).names, broken)
    requires Honest(reports(1), Plan(base, head).names - broken, broken) || Plan(base, head).names <= broken
    ensures var e, names := Gate(branch, base, head, reports, runs, 0), Plan(base, head).names;
      && e.held == (if branch.UpstreamSources? then names * broken else {})
      && (e.merged <==>
            || names !! broken
            || (&& branch.UpstreamSources?
                && (names <= broken ==> HoldsMerge(base, head, names, runs(0), reports(1)))))
      && e.builds <= 2
  {
    hide *;
    var names := Plan(base, head).names;
    PlanNames(base, head);
    GateAtOnce(branch, base, head, reports, runs, 0);
    HonestBuild(reports(0), names, broken);
    var held := names * broken;
    if held != {} {
      assert !(names !! broken);
      PlanAfterTrim(base, head, held, runs(0));
      var c := Trim(base, head, held, runs(0)).commit;
      GateHolds(branch, base, head, reports, runs, held);
      GateAtOnce(branch, base, c, reports, runs, 1);
      if held < names {
        assert names - held == names - broken && (names - broken) * broken == {};
        HonestBuild(reports(1), names - broken, broken);
      } else {
        assert held == names;
        HoldsMergeIs(base, head, names, runs(0), reports(1));
      }
    }
  }

  lemma HoldsMergeIs(base: Commit, head: Commit, names: set<Name>, run: string, r: Report)
    requires Trim(base, head, names, run).Trimmed?
    ensures HoldsMerge(base, head, names, run, r) <==>
              Plan(base, Trim(base, head, names, run).commit).HoldsOnly? && r.result == "skipped"
  {
    hide Plan, Trim;
  }

  lemma GateAtOnce(branch: Branch, base: Commit, head: Commit, reports: nat -> Report, runs: nat -> string, i: nat)
    ensures Plan(base, head).Packages? && Proved(Some(Sorted(Plan(base, head).names)), reports(i)) ==>
              Gate(branch, base, head, reports, runs, i) == Ending(true, head, {}, i + 1)
    ensures !Plan(base, head).Packages? ==>
              Gate(branch, base, head, reports, runs, i) ==
                  Ending(Plan(base, head).HoldsOnly? && reports(i).result == "skipped", head, {}, i)
  {
    hide Plan, Trim, Proved, Holdable, BumpOf;
  }

  lemma GateHolds(branch: Branch, base: Commit, head: Commit, reports: nat -> Report, runs: nat -> string,
                  held: set<Name>)
    requires Plan(base, head).Packages? && Trim(base, head, held, runs(0)).Trimmed?
    requires !Proved(Some(Sorted(Plan(base, head).names)), reports(0))
    requires held == Holdable(Some(Sorted(Plan(base, head).names)), reports(0)) != {}
    ensures branch.RawhideImports? ==> Gate(branch, base, head, reports, runs, 0) == Ending(false, head, {}, 1)
    ensures branch.UpstreamSources? ==>
              var rest := Gate(branch, base, Trim(base, head, held, runs(0)).commit, reports, runs, 1);
              Gate(branch, base, head, reports, runs, 0) == rest.(held := rest.held + held)
  {
    hide Plan, Trim, Proved, Holdable, BumpOf;
  }

  lemma HonestBuild(r: Report, wanted: set<Name>, broken: set<Name>)
    requires Honest(r, wanted, broken) && wanted != {}
    ensures Proved(Some(Sorted(wanted)), r) <==> wanted * broken == {}
    ensures Holdable(Some(Sorted(wanted)), r) == wanted * broken
  {
    assert Elements(Sorted(wanted)) == wanted;
    assert r.failed.value == [] <==> Elements(r.failed.value) == {} by {
      if r.failed.value != [] { assert r.failed.value[0] in Elements(r.failed.value); }
    }
    var n :| n in wanted;
    assert n in Sorted(wanted);
  }

  // --------------------------------------------------- a bump that is held entirely

  /** The entries of names the base has too, in order. */
  function Shared(packages: seq<Entry>, base: map<Name, Entry>): seq<Entry> {
    if packages == [] then []
    else
      var k := |packages| - 1;
      Shared(packages[..k], base) + if packages[k].name in base then [packages[k]] else []
  }

  function TakenBack(e: Entry, base: map<Name, Entry>, held: set<Name>): Entry {
    if e.name in held && e.name in base then base[e.name] else e
  }

  function AllTakenBack(entries: seq<Entry>, base: map<Name, Entry>, held: set<Name>): seq<Entry> {
    seq(|entries|, i requires 0 <= i < |entries| => TakenBack(entries[i], base, held))
  }

  /** With everything the base does not have held, a trim keeps the shared entries and takes the held ones back. */
  lemma {:induction false} TrimKeepsShared(packages: seq<Entry>, base: map<Name, Entry>, held: set<Name>)
    requires forall e | e in packages && e.name !in base :: e.name in held
    ensures TrimmedPackages(packages, base, held) == AllTakenBack(Shared(packages, base), base, held)
  {
    if packages != [] {
      var k := |packages| - 1;
      TrimKeepsShared(packages[..k], base, held);
      assert packages[k] in packages;
      var shared, more := Shared(packages[..k], base), if packages[k].name in base then [packages[k]] else [];
      assert AllTakenBack(shared + more, base, held) ==
          AllTakenBack(shared, base, held) + AllTakenBack(more, base, held);
    }
  }

  /** The two locks, apart from what the bumped names changed: same other keys, same shared entries in order. */
  predicate SameLock(base: Commit, head: Commit, bumped: set<Name>) {
    && base.lock.Some? && head.lock.Some? && head.lock.value.others == base.lock.value.others
    && var shared := Shared(head.lock.value.packages, LocksOf(base.lock));
       && |shared| == |base.lock.value.packages|
       && forall i | 0 <= i < |shared| ::
           TakenBack(shared[i], LocksOf(base.lock), bumped) == base.lock.value.packages[i]
  }

  predicate NoTwins(packages: seq<Entry>) {
    forall i, j | 0 <= i < j < |packages| :: packages[i].name != packages[j].name
  }

  function NamesIn(packages: seq<Entry>): seq<Name> {
    seq(|packages|, i requires 0 <= i < |packages| => packages[i].name)
  }

  /** `files` holds none of the files that are parsed. */
  predicate Apart(c: Commit) {
    LOCK !in c.files && HOLDS !in c.files && REVIEW_ONLY !in c.files
  }

  /** The base's holds file is already what holding `names` would write. */
  predicate AlreadyRecorded(base: Commit, head: Commit, names: set<Name>, run: string)
    requires names <= LocksOf(head.lock).Keys
  {
    && base.holdsText == INDENTED && base.holds.Holds? && head.holds.Holds?
    && base.holds.holds.Keys == head.holds.holds.Keys + names
    && forall n | n in base.holds.holds :: base.holds.holds[n] ==
         if n in names then Hold(LocksOf(head.lock)[n].version, run) else head.holds.holds[n]
  }

  lemma LockRestored(base: Commit, head: Commit, names: set<Name>, run: string)
    requires Trim(base, head, names, run).Trimmed? && Moved(LocksOf(base.lock), LocksOf(head.lock)) <= names
    ensures Trim(base, head, names, run).commit.lock == base.lock <==> SameLock(base, head, names)
  {
    var packages, bases := head.lock.value.packages, LocksOf(base.lock);
    forall e | e in packages && e.name !in bases ensures e.name in names {
      NamesKept(packages, e);
      assert e.name in Moved(bases, LocksOf(head.lock));
    }
    TrimKeepsShared(packages, bases, names);
    var shared := Shared(packages, bases);
    var back := AllTakenBack(shared, bases, names);
    assert Trim(base, head, names, run).commit.lock == Some(Document(back, head.lock.value.others));
    hide TrimmedPackages, Shared, Moved, Trim;
    assert |back| == |shared| && forall i | 0 <= i < |shared| :: back[i] == TakenBack(shared[i], bases, names);
    if SameLock(base, head, names) { assert back == base.lock.value.packages; }
  }

  lemma {:induction false} NamesKept(packages: seq<Entry>, e: Entry)
    requires e in packages
    ensures e.name in ByName(packages)
  {
    var k := |packages| - 1;
    if e != packages[k] { NamesKept(packages[..k], e); }
  }

  lemma HoldsChanged(base: Commit, head: Commit, names: set<Name>, run: string)
    requires Trim(base, head, names, run).Trimmed? && Apart(base) && Apart(head)
    ensures HOLDS in Diff(base, Trim(base, head, names, run).commit) <==> !AlreadyRecorded(base, head, names, run)
  {
    hide TrimmedPackages, LocksOf;
    var c := Trim(base, head, names, run).commit;
    TrimFilesDiff(base.files, head.files, names, HOLDS);
    assert HOLDS !in FilesDiff(base.files, c.files);
    if AlreadyRecorded(base, head, names, run) { assert c.holds.holds == base.holds.holds; }
  }

  /**
   Read off the base and the head alone: when every bumped package is held, what is left merges with its
   holds exactly when the locks are otherwise the same, the holds are not yet recorded, and no file outside
   the bumped recipes changed.
   */
  lemma AllHeldMerges(base: Commit, head: Commit, run: string)
    requires Plan(base, head).Packages? && Apart(base) && Apart(head)
    ensures var names := Plan(base, head).names;
      && names <= LocksOf(head.lock).Keys && Trim(base, head, names, run).Trimmed?
      && (Plan(base, Trim(base, head, names, run).commit).HoldsOnly? <==>
            SameLock(base, head, names) && !AlreadyRecorded(base, head, names, run) && FilesOnlyIn(base, head, names))
  {
    hide Plan, Diff, Moved, Trim, SameLock, FilesOnlyIn, AlreadyRecorded, TrimmedPackages;
    PlanNames(base, head);
    PlanAfterTrim(base, head, Plan(base, head).names, run);
    LockRestored(base, head, Plan(base, head).names, run);
    HoldsChanged(base, head, Plan(base, head).names, run);
  }

  /** Without twins, which the inventory refuses, the locks are otherwise the same when the shared names are. */
  lemma SameLockByOrder(base: Commit, head: Commit)
    requires base.lock.Some? && head.lock.Some? && NoTwins(base.lock.value.packages)
        && NoTwins(head.lock.value.packages)
    ensures SameLock(base, head, BumpOf(base, head)) <==>
      && head.lock.value.others == base.lock.value.others
      && NamesIn(Shared(head.lock.value.packages, LocksOf(base.lock))) == NamesIn(base.lock.value.packages)
  {
    hide BumpOf;
    var bases, heads := base.lock.value.packages, head.lock.value.packages;
    var shared := Shared(heads, LocksOf(base.lock));
    forall i | 0 <= i < |shared| && |shared| == |bases| && shared[i].name == bases[i].name
      ensures TakenBack(shared[i], LocksOf(base.lock), BumpOf(base, head)) == bases[i]
    {
      OnlyOne(bases, i);
      SharedIn(heads, LocksOf(base.lock), shared[i]);
      var j :| 0 <= j < |heads| && heads[j] == shared[i];
      OnlyOne(heads, j);
      if shared[i].name !in BumpOf(base, head) { UnbumpedSame(base, head, shared[i].name); }
    }
    forall i | 0 <= i < |shared| && |shared| == |bases| &&
               TakenBack(shared[i], LocksOf(base.lock), BumpOf(base, head)) == bases[i]
      ensures shared[i].name == bases[i].name
    {
      NamedByKey(bases);
    }
    if SameLock(base, head, BumpOf(base, head)) {
      assert forall i | 0 <= i < |shared| :: NamesIn(shared)[i] == NamesIn(bases)[i];
    }
    if NamesIn(shared) == NamesIn(bases) {
      assert |NamesIn(shared)| == |shared| && |NamesIn(bases)| == |bases|;
      assert forall i | 0 <= i < |shared| :: NamesIn(shared)[i] == shared[i].name && NamesIn(bases)[i] == bases[i].name;
    }
  }

  lemma UnbumpedSame(base: Commit, head: Commit, n: Name)
    requires n in LocksOf(head.lock) && n !in BumpOf(base, head)
    ensures n in LocksOf(base.lock) && LocksOf(base.lock)[n] == LocksOf(head.lock)[n]
  {
    assert n !in Moved(LocksOf(base.lock), LocksOf(head.lock));
  }

  lemma {:induction false} OnlyOne(packages: seq<Entry>, i: nat)
    requires NoTwins(packages) && i < |packages|
    ensures packages[i].name in ByName(packages) && ByName(packages)[packages[i].name] == packages[i]
  {
    var k := |packages| - 1;
    if i < k { OnlyOne(packages[..k], i); }
  }

  lemma {:induction false} SharedIn(packages: seq<Entry>, base: map<Name, Entry>, e: Entry)
    requires e in Shared(packages, base)
    ensures e in packages && e.name in base
  {
    var k := |packages| - 1;
    if e in Shared(packages[..k], base) { SharedIn(packages[..k], base, e); }
  }

  // ----------------------------------------------------------------- the witness

  const BASE: Commit := Commit(Some(Document([], "")), INDENTED, Holds(map[]), INDENTED, {}, "", map[])

  /** One package bumped, and the multimedia report with it. */
  function Reported(n: Name): Commit {
    BASE.(lock := Some(Document([Entry(n, "2", "")], "")), files := map[MULTIMEDIA_REPORT := "new"])
  }

  lemma ReportedDiff(n: Name)
    ensures Diff(BASE, Reported(n)) == {MULTIMEDIA_REPORT, LOCK}
    ensures AllAllowed(Diff(BASE, Reported(n))) && Touched(Diff(BASE, Reported(n))) == {}
  {
    var head := Reported(n);
    assert FilesDiff(BASE.files, head.files) == {MULTIMEDIA_REPORT};
    assert BASE.lock.value.packages != head.lock.value.packages;
    assert ConfigDiff(BASE, head) == {LOCK};
    assert |LOCK| == |MULTIMEDIA_REPORT| == 2;
  }

  lemma ReportedLocks(n: Name)
    ensures LocksOf(BASE.lock) == map[] && LocksOf(Reported(n).lock) == map[n := Entry(n, "2", "")]
    ensures Moved(LocksOf(BASE.lock), LocksOf(Reported(n).lock)) == {n}
  {
    var packages := [Entry(n, "2", "")];
    assert packages[..0] == [] && ByName([]) == map[];
    assert ByName(packages) == map[n := packages[0]];
  }

  lemma ReportedPlan(n: Name)
    ensures Plan(BASE, Reported(n)) == Packages({n})
  {
    ReportedDiff(n);
    ReportedLocks(n);
    var head := Reported(n);
    assert head.holds.Holds? && head.reviewOnly == {};
    hide Diff, Moved, Touched, LocksOf, AllAllowed, Reported, ByName;
    assert BumpOf(BASE, head) == {n};
    PlanAccepts(BASE, head);
  }

  lemma ReportOutside(n: Name)
    ensures Apart(BASE) && Apart(Reported(n)) && !FilesOnlyIn(BASE, Reported(n), {n})
  {
    assert MULTIMEDIA_REPORT in FilesDiff(BASE.files, Reported(n).files) - {HOLDS, LOCK};
    assert MULTIMEDIA_REPORT[0][0] != PACKAGES[0];
  }

  lemma OneFails(n: Name)
    ensures Honest(Report(Some([n]), Some([n]), "failure"), {n}, {n})
  {
    assert Elements([n]) == {n} && "failure"[0] != "success"[0];
  }

  /** The bumped package fails and is held; what is left changes the report too, and is not merged. */
  lemma ReportIsNotMerged(branch: Branch, n: Name, reports: nat -> Report, runs: nat -> string)
    requires reports(0) == Report(Some([n]), Some([n]), "failure")
    ensures var e := Gate(branch, BASE, Reported(n), reports, runs, 0);
      e.held == (if branch.UpstreamSources? then {n} else {}) && !e.merged
  {
    ReportedPlan(n);
    ReportOutside(n);
    OneFails(n);
    var base, head := BASE, Reported(n);
    hide *;
    assert {n} * {n} == {n} && {n} <= {n};
    AllHeldMerges(base, head, runs(0));
    HoldsMergeIs(base, head, {n}, runs(0), reports(1));
    OneTrimSuffices(branch, base, head, reports, runs, {n});
  }

  /** Two packages imported anew. */
  function Imported(n: Name, m: Name): Commit {
    BASE.(lock := Some(Document([Entry(n, "2", ""), Entry(m, "2", "")], "")))
  }

  lemma ImportedDiff(n: Name, m: Name)
    ensures AllAllowed(Diff(BASE, Imported(n, m))) && Touched(Diff(BASE, Imported(n, m))) == {}
  {
    var head := Imported(n, m);
    assert FilesDiff(BASE.files, head.files) == {};
    assert ConfigDiff(BASE, head) <= {LOCK};
    assert |LOCK| == 2;
  }

  lemma ImportedLocks(n: Name, m: Name)
    requires n != m
    ensures LocksOf(Imported(n, m).lock).Keys == {n, m} && LocksOf(BASE.lock) == map[]
    ensures Moved(LocksOf(BASE.lock), LocksOf(Imported(n, m).lock)) == {n, m}
  {
    var packages := [Entry(n, "2", ""), Entry(m, "2", "")];
    assert ByName([]) == map[];
    ByNameAppend([], packages[0]);
    ByNameAppend([packages[0]], packages[1]);
    assert packages == [packages[0]] + [packages[1]] && [packages[0]] == [] + [packages[0]];
  }

  lemma ImportedPlan(n: Name, m: Name)
    requires n != m
    ensures Plan(BASE, Imported(n, m)) == Packages({n, m})
  {
    ImportedDiff(n, m);
    ImportedLocks(n, m);
    var head := Imported(n, m);
    assert head.holds.Holds? && head.reviewOnly == {};
    hide Diff, Moved, Touched, LocksOf, AllAllowed, Imported, ByName;
    assert BumpOf(BASE, head) == {n, m};
    PlanAccepts(BASE, head);
  }

  lemma OneOfTwoFails(n: Name, m: Name)
    requires n != m
    ensures Honest(Report(Some([n, m]), Some([n]), "failure"), {n, m}, {n})
    ensures Honest(Report(Some([m]), Some([]), "success"), {m}, {n})
  {
    assert Elements([n]) == {n} && Elements([m]) == {m} && Elements([n, m]) == {n, m} && Elements([]) == {};
    assert "failure"[0] != "success"[0];
  }

  /**
   Of two packages the first breaks: on `bump/upstream-sources` it is held and the second merged, on
   `bump/rawhide-imports` the pull request stays as it is.
   */
  lemma RawhideHoldIsLost(branch: Branch, n: Name, m: Name, reports: nat -> Report, runs: nat -> string)
    requires n != m
    requires reports(0) == Report(Some([n, m]), Some([n]), "failure")
    requires reports(1) == Report(Some([m]), Some([]), "success")
    ensures var e := Gate(branch, BASE, Imported(n, m), reports, runs, 0);
      && (e.merged <==> branch.UpstreamSources?)
      && e.held == (if branch.UpstreamSources? then {n} else {})
      && (branch.RawhideImports? ==> e.commit == Imported(n, m))
  {
    ImportedPlan(n, m);
    hide *;
    OneOfTwoLeft(branch, BASE, Imported(n, m), n, m, reports, runs);
  }

  lemma OneOfTwoLeft(branch: Branch, base: Commit, head: Commit, n: Name, m: Name, reports: nat -> Report,
                     runs: nat -> string)
    requires n != m && Plan(base, head) == Packages({n, m})
    requires reports(0) == Report(Some([n, m]), Some([n]), "failure")
    requires reports(1) == Report(Some([m]), Some([]), "success")
    ensures var e := Gate(branch, base, head, reports, runs, 0);
      && (e.merged <==> branch.UpstreamSources?)
      && e.held == (if branch.UpstreamSources? then {n} else {})
      && (branch.RawhideImports? ==> e.commit == head)
  {
    OneOfTwoFails(n, m);
    hide *;
    FirstOfTwo(n, m);
    OneTrimSuffices(branch, base, head, reports, runs, {n});
    GateEnds(branch, base, head, reports, runs, 0);
  }

  lemma FirstOfTwo(n: Name, m: Name)
    requires n != m
    ensures {n, m} * {n} == {n} && {n, m} - {n} == {m} && !({n, m} <= {n}) && !({n, m} !! {n})
  {
    assert m in {n, m} && m !in {n} && n in {n, m} && n in {n};
  }
}
