/**
 tools/bump_gate.py: whether a bump pull request may merge itself, which of its
 packages are held back when it may not, and the loop the two make.
 */
module BumpGate {
  import opened Common
  import opened Ordering

  type Name = string

  /** A repository path, split at its slashes. */
  type Path = seq<string>

  const LOCK: Path := ["config", "upstream-sources.json"]
  const HOLDS: Path := ["config", "bump-holds.json"]
  const REVIEW_ONLY: Path := ["config", "bump-review-only.txt"]
  const MULTIMEDIA_REPORT: Path := ["reports", "multimedia-closure.json"]
  const PACKAGES: string := "packages"

  datatype Entry = Entry(name: Name, version: string, rest: string)

  /** The lock: its entries, its other keys. */
  datatype Document = Document(packages: seq<Entry>, others: string)

  datatype Hold = Hold(version: string, run: string)

  /** config/bump-holds.json: absent or empty text is no holds, unreadable text is an error. */
  datatype Holds = Holds(holds: map<Name, Hold>) | Unreadable

  /** Each `...Text` is what a parsed file's text has beyond its content; `files` is every other file. */
  datatype Commit = Commit(lock: Option<Document>, lockText: string, holds: Holds, holdsText: string,
                           reviewOnly: set<Name>, reviewOnlyText: string, files: map<Path, string>)

  // ------------------------------------------------------------------ the diff

  /** `{entry["name"]: entry for entry in packages}`: a later entry wins. */
  function ByName(packages: seq<Entry>): map<Name, Entry> {
    if packages == [] then map[]
    else var k := |packages| - 1; ByName(packages[..k])[packages[k].name := packages[k]]
  }

  function LocksOf(lock: Option<Document>): map<Name, Entry> {
    if lock.Some? then ByName(lock.value.packages) else map[]
  }

  predicate Differs(a: map<Path, string>, b: map<Path, string>, p: Path) {
    (p in a) != (p in b) || (p in a && p in b && a[p] != b[p])
  }

  function FilesDiff(base: map<Path, string>, head: map<Path, string>): set<Path> {
    set p | p in base.Keys + head.Keys && Differs(base, head, p)
  }

  /** The parsed files that differ. */
  function ConfigDiff(base: Commit, head: Commit): set<Path> {
    (if base.lock != head.lock || base.lockText != head.lockText then {LOCK} else {})
    + (if base.holds != head.holds || base.holdsText != head.holdsText then {HOLDS} else {})
    + (if base.reviewOnly != head.reviewOnly || base.reviewOnlyText != head.reviewOnlyText then {REVIEW_ONLY} else {})
  }

  /** `git diff --name-only base head` */
  function Diff(base: Commit, head: Commit): set<Path> {
    FilesDiff(base.files, head.files) + ConfigDiff(base, head)
  }

  /** `moved`: lock entries that differ. */
  function Moved(base: map<Name, Entry>, head: map<Name, Entry>): set<Name> {
    set n | n in head && !(n in base && base[n] == head[n])
  }

  predicate InRecipe(p: Path, n: Name) {
    |p| > 2 && p[0] == PACKAGES && p[1] == n
  }

  function Touched(paths: set<Path>): set<Name> {
    set p | p in paths && |p| > 2 && p[0] == PACKAGES :: p[1]
  }

  /** `bumped`, as a set; the source returns it sorted. */
  function Bumped(base: map<Name, Entry>, head: map<Name, Entry>, paths: set<Path>): set<Name> {
    Moved(base, head) + (base.Keys - head.Keys) + Touched(paths)
  }

  function BumpOf(base: Commit, head: Commit): set<Name> {
    Bumped(LocksOf(base.lock), LocksOf(head.lock), Diff(base, head))
  }

  // -------------------------------------------------------------------- verdict

  /** What a build reported: a missing or malformed output is `None`. */
  datatype Report = Report(buildList: Option<seq<Name>>, failed: Option<seq<Name>>, result: string)

  datatype Reason =
    | NothingNamed | NotSuccess(result: string) | NoBuildList | NoFailedList
    | BumpedFailed(names: set<Name>) | OthersFailed(names: set<Name>) | NotSelected(names: set<Name>)

  function Wanted(o: Option<seq<Name>>): set<Name> {
    if o.Some? then Elements(o.value) else {}
  }

  /** The build proved the bump: it succeeded, selected every bumped package, and nothing failed. */
  predicate Proved(wanted: Option<seq<Name>>, r: Report) {
    && wanted.Some? && wanted.value != []
    && r.result == "success"
    && r.failed == Some([])
    && r.buildList.Some? && Elements(wanted.value) <= Elements(r.buildList.value)
  }

  /** What each reason claims. */
  predicate Applies(reason: Reason, wanted: Option<seq<Name>>, r: Report) {
    match reason
    case NothingNamed => Wanted(wanted) == {}
    case NotSuccess(result) => result == r.result != "success"
    case NoBuildList => r.buildList.None?
    case NoFailedList => r.failed.None?
    case BumpedFailed(names) => names == Wanted(r.failed) * Wanted(wanted) != {}
    case OthersFailed(names) => names == Wanted(r.failed) - Wanted(wanted) != {}
    case NotSelected(names) => r.buildList.Some? && names == Wanted(wanted) - Wanted(r.buildList) != {}
  }

  /** The reason check `k` would give. */
  function Candidate(k: nat, wanted: Option<seq<Name>>, r: Report): Reason {
    if k == 0 then NothingNamed
    else if k == 1 then NotSuccess(r.result)
    else if k == 2 then NoBuildList
    else if k == 3 then NoFailedList
    else if k == 4 then BumpedFailed(Wanted(r.failed) * Wanted(wanted))
    else if k == 5 then OthersFailed(Wanted(r.failed) - Wanted(wanted))
    else NotSelected(Wanted(wanted) - Wanted(r.buildList))
  }

  /** `reasons` are the ones that apply among the first `k` checks. */
  ghost predicate Found(reasons: seq<Reason>, k: nat, wanted: Option<seq<Name>>, r: Report) {
    forall reason {:trigger reason in reasons} ::
      reason in reasons <==> Applies(reason, wanted, r) && exists i: nat | i < k :: reason == Candidate(i, wanted, r)
  }

  lemma FoundNext(reasons: seq<Reason>, k: nat, wanted: Option<seq<Name>>, r: Report)
    requires Found(reasons, k, wanted, r)
    ensures var next := Candidate(k, wanted, r);
      Found(if Applies(next, wanted, r) then reasons + [next] else reasons, k + 1, wanted, r)
  {
    hide Candidate, Applies;
  }

  /** When each check gives its reason. */
  lemma CandidateApplies(wanted: Option<seq<Name>>, r: Report)
    ensures Applies(Candidate(0, wanted, r), wanted, r) <==> wanted.None? || wanted.value == []
    ensures Applies(Candidate(1, wanted, r), wanted, r) <==> r.result != "success"
    ensures Applies(Candidate(2, wanted, r), wanted, r) <==> r.buildList.None?
    ensures Applies(Candidate(3, wanted, r), wanted, r) <==> r.failed.None?
    ensures Applies(Candidate(4, wanted, r), wanted, r) <==> Wanted(r.failed) * Wanted(wanted) != {}
    ensures Applies(Candidate(5, wanted, r), wanted, r) <==> Wanted(r.failed) - Wanted(wanted) != {}
    ensures Applies(Candidate(6, wanted, r), wanted, r) <==>
              r.buildList.Some? && Wanted(wanted) - Wanted(r.buildList) != {}
  {
    if wanted.Some? && wanted.value != [] { assert wanted.value[0] in Wanted(wanted); }
  }

  lemma AllFound(reasons: seq<Reason>, wanted: Option<seq<Name>>, r: Report)
    requires Found(reasons, 7, wanted, r)
    ensures forall reason {:trigger reason in reasons} {:trigger Applies(reason, wanted, r)} ::
      reason in reasons <==> Applies(reason, wanted, r)
  {
    forall reason {:trigger Applies(reason, wanted, r)} | Applies(reason, wanted, r) ensures reason in reasons {
      var i := match reason
        case NothingNamed => 0
        case NotSuccess(_) => 1
        case NoBuildList => 2
        case NoFailedList => 3
        case BumpedFailed(_) => 4
        case OthersFailed(_) => 5
        case NotSelected(_) => 6;
      assert reason == Candidate(i, wanted, r);
    }
  }

  /** `verdict`: every reason not to merge; none means merge. */
  method Verdict(wanted: Option<seq<Name>>, r: Report) returns (reasons: seq<Reason>)
    ensures forall reason :: reason in reasons <==> Applies(reason, wanted, r)
    ensures reasons == [] <==> Proved(wanted, r)
  {
    CandidateApplies(wanted, r);
    reasons := [];
    assert Found(reasons, 0, wanted, r);
    assert wanted.None? || wanted.value == [] ==> Wanted(wanted) == {};
    hide Found, Proved, Applies, Wanted;
    FoundNext(reasons, 0, wanted, r);
    if wanted.None? || wanted.value == [] {
      reasons := reasons + [NothingNamed];
    }
    FoundNext(reasons, 1, wanted, r);
    if r.result != "success" {
      reasons := reasons + [NotSuccess(r.result)];
    }
    FoundNext(reasons, 2, wanted, r);
    if r.buildList.None? {
      reasons := reasons + [NoBuildList];
    }
    FoundNext(reasons, 3, wanted, r);
    if r.failed.None? {
      reasons := reasons + [NoFailedList];
    }
    FoundNext(reasons, 4, wanted, r);
    var failed := Wanted(r.failed);
    var names := failed * Wanted(wanted);
    if names != {} {
      reasons := reasons + [BumpedFailed(names)];
    }
    FoundNext(reasons, 5, wanted, r);
    var other := failed - Wanted(wanted);
    if other != {} {
      reasons := reasons + [OthersFailed(other)];
    }
    FoundNext(reasons, 6, wanted, r);
    if wanted.Some? && wanted.value != [] && r.buildList.Some? {
      var missing := Wanted(wanted) - Wanted(r.buildList);
      if missing != {} {
        reasons := reasons + [NotSelected(missing)];
      }
    }
    AllFound(reasons, wanted, r);
    NothingApplies(reasons, wanted, r);
  }

  lemma NothingApplies(reasons: seq<Reason>, wanted: Option<seq<Name>>, r: Report)
    requires forall reason {:trigger reason in reasons} {:trigger Applies(reason, wanted, r)} ::
      reason in reasons <==> Applies(reason, wanted, r)
    ensures reasons == [] <==> Proved(wanted, r)
  {
    if wanted.Some? && wanted.value != [] { assert wanted.value[0] in Wanted(wanted); }
    if r.failed.Some? && r.failed.value != [] { assert r.failed.value[0] in Wanted(r.failed); }
    if reasons == [] {
      assert NothingNamed !in reasons && NotSuccess(r.result) !in reasons && NoBuildList !in reasons
          && NoFailedList !in reasons;
      assert BumpedFailed(Wanted(r.failed) * Wanted(wanted)) !in reasons
          && OthersFailed(Wanted(r.failed) - Wanted(wanted)) !in reasons;
      assert NotSelected(Wanted(wanted) - Wanted(r.buildList)) !in reasons;
      assert Wanted(r.failed) == Wanted(r.failed) * Wanted(wanted) + (Wanted(r.failed) - Wanted(wanted));
    } else {
      assert reasons[0] in reasons;
    }
  }

  /** `holds_only_verdict` */
  predicate HoldsOnlyOk(wanted: Option<seq<Name>>, r: Report) {
    wanted == Some([]) && r.result == "skipped"
  }

  /** `holdable`: the packages to hold so the rest can merge; the source returns them sorted. */
  function Holdable(wanted: Option<seq<Name>>, r: Report): set<Name> {
    if wanted.None? || wanted.value == [] || r.buildList.None? || r.failed.None? then {}
    else if r.result != "success" && r.result != "failure" then {}
    else if !(Elements(wanted.value) <= Elements(r.buildList.value)) || r.failed.value == []
            || !(Elements(r.failed.value) <= Elements(wanted.value)) then {}
    else Elements(r.failed.value)
  }

  /** Holding and merging exclude each other, and only named packages that failed are held. */
  lemma HoldableMeaning(wanted: Option<seq<Name>>, r: Report)
    ensures Holdable(wanted, r) != {}
        ==> (&& !Proved(wanted, r)
             && Holdable(wanted, r) == Wanted(r.failed)
             && Holdable(wanted, r) <= Wanted(wanted) <= Wanted(r.buildList))
    ensures (&& wanted.Some? && wanted.value != [] && r.buildList.Some? && r.failed.Some?
             && Wanted(r.failed) <= Wanted(wanted) <= Wanted(r.buildList))
        ==> (&& (r.result == "success" ==> (Proved(wanted, r) <==> Holdable(wanted, r) == {}))
             && (r.result == "failure" ==> Holdable(wanted, r) == Wanted(r.failed)))
  {
    if r.failed.Some? && r.failed.value != [] { assert r.failed.value[0] in Elements(r.failed.value); }
  }

  /** A package is held exactly when it failed in a build that ended, selected the bump, and failed in nothing else. */
  lemma HeldIff(wanted: Option<seq<Name>>, r: Report, n: Name)
    ensures n in Holdable(wanted, r) <==>
      && (r.result == "success" || r.result == "failure")
      && wanted.Some? && r.buildList.Some? && r.failed.Some? && n in r.failed.value
      && (forall m | m in wanted.value :: m in r.buildList.value)
      && (forall m | m in r.failed.value :: m in wanted.value)
  {
    if wanted.Some? && r.buildList.Some? && r.failed.Some? {
      ListedIn(wanted.value, r.buildList.value);
      ListedIn(r.failed.value, wanted.value);
      assert n in Elements(r.failed.value) <==> n in r.failed.value;
      if wanted.value == [] { assert n !in wanted.value; }
    }
  }

  lemma ListedIn(a: seq<Name>, b: seq<Name>)
    ensures Elements(a) <= Elements(b) <==> forall m | m in a :: m in b
  {
    if Elements(a) <= Elements(b) {
      forall m | m in a ensures m in b { assert m in Elements(a); }
    }
  }

  /** Some bumped package built exactly when the held ones are not all of them; the code does not ask for it. */
  lemma SomeBuilt(wanted: Option<seq<Name>>, r: Report)
    requires Holdable(wanted, r) != {}
    ensures (exists n :: n in Wanted(wanted) && n !in Wanted(r.failed)) <==> Holdable(wanted, r) < Wanted(wanted)
  {
    HoldableMeaning(wanted, r);
    hide Holdable, Proved;
    var held, all := Holdable(wanted, r), Wanted(wanted);
    if held < all {
      assert all - held != {} by {
        if all - held == {} {
          forall n | n in all ensures n in held { assert n !in all - held; }
        }
      }
      var n :| n in all - held;
    }
  }

  /** Every bumped package failed, and all are held. */
  lemma HoldsEvenAll(n: Name)
    ensures var r := Report(Some([n]), Some([n]), "failure");
      Holdable(Some([n]), r) == {n} == Wanted(Some([n]))
  {
    assert "failure"[0] != "success"[0];
    assert Elements([n]) == {n};
  }

  // ----------------------------------------------------------------------- trim

  /** A held package's entry goes back to the base's, or out. */
  function TrimmedPackages(packages: seq<Entry>, base: map<Name, Entry>, held: set<Name>): seq<Entry> {
    if packages == [] then []
    else
      var k := |packages| - 1;
      TrimmedPackages(packages[..k], base, held) +
      if packages[k].name !in held then [packages[k]]
      else if packages[k].name in base then [base[packages[k].name]]
      else []
  }

  predicate InHeldRecipe(p: Path, held: set<Name>) {
    |p| >= 2 && p[0] == PACKAGES && p[1] in held
  }

  /** The held recipe directories as the base has them. */
  function TrimmedFiles(files: map<Path, string>, base: map<Path, string>, held: set<Name>): map<Path, string> {
    map p | p in files.Keys + base.Keys && (if InHeldRecipe(p, held) then |p| > 2 && p in base else p in files) ::
      if InHeldRecipe(p, held) then base[p] else files[p]
  }

  function TrimmedHolds(holds: map<Name, Hold>, locks: map<Name, Entry>, held: set<Name>, run: string): map<Name, Hold>
    requires held <= locks.Keys
  {
    map n | n in holds.Keys + held :: if n in held then Hold(locks[n].version, run) else holds[n]
  }

  datatype TrimResult = Trimmed(commit: Commit) | ValueError

  /** `json.dumps(..., indent=2)` and a newline. */
  const INDENTED: string := "indent=2"

  function Trim(base: Commit, head: Commit, held: set<Name>, run: string): TrimResult {
    if head.lock.None? || !(held <= LocksOf(head.lock).Keys) || head.holds.Unreadable? then ValueError
    else Trimmed(head.(
      lock := Some(head.lock.value.(packages := TrimmedPackages(head.lock.value.packages, LocksOf(base.lock), held))),
      lockText := INDENTED,
      files := TrimmedFiles(head.files, base.files, held),
      holds := Holds(TrimmedHolds(head.holds.holds, LocksOf(head.lock), held, run)),
      holdsText := INDENTED))
  }

  /** The checkout `trim` rewrites in place. */
  class Checkout {
    var lock: Document
    var files: map<Path, string>
    var holds: map<Name, Hold>

    constructor (head: Commit)
      requires head.lock.Some? && head.holds.Holds?
      ensures lock == head.lock.value && files == head.files && holds == head.holds.holds
    {
      lock, files, holds := head.lock.value, head.files, head.holds.holds;
    }

    /** The loop over the lock's entries. */
    method RewriteLock(base: map<Name, Entry>, held: seq<Name>)
      modifies this`lock
      ensures lock == old(lock).(packages := TrimmedPackages(old(lock).packages, base, Elements(held)))
    {
      var packages: seq<Entry> := [];
      var all := lock.packages;
      for i := 0 to |all|
        invariant packages == TrimmedPackages(all[..i], base, Elements(held))
        invariant lock == old(lock)
      {
        assert all[..i + 1][..i] == all[..i];
        if all[i].name !in held {
          packages := packages + [all[i]];
        } else if all[i].name in base {
          packages := packages + [base[all[i].name]];
        }
      }
      assert all[..|all|] == all;
      lock := lock.(packages := packages);
    }

    /** `git rm` of each held directory, then `git checkout base` of it where the base has one. */
    method RestoreRecipes(base: map<Path, string>, held: seq<Name>)
      modifies this`files
      ensures files == TrimmedFiles(old(files), base, Elements(held))
    {
      hide InHeldRecipe, InRecipe, TrimmedFiles;
      TrimNoFiles(files, base);
      assert Elements(held[..0]) == {};
      for i := 0 to |held|
        invariant files == TrimmedFiles(old(files), base, Elements(held[..i]))
      {
        var name := held[i];
        TrimOneRecipe(files, base, name);
        TrimFilesTwice(old(files), base, Elements(held[..i]), {name});
        files := map p | p in files && !InHeldRecipe(p, {name}) :: files[p];
        files := files + (map p | p in base && InRecipe(p, name) :: base[p]);
        assert Elements(held[..i + 1]) == Elements(held[..i]) + {name};
      }
      assert held[..|held|] == held;
    }

    method RecordHolds(locks: map<Name, Entry>, held: seq<Name>, run: string)
      requires Elements(held) <= locks.Keys
      modifies this`holds
      ensures holds == TrimmedHolds(old(holds), locks, Elements(held), run)
    {
      assert Elements(held[..0]) == {};
      assert TrimmedHolds(holds, locks, {}, run) == holds;
      hide TrimmedHolds;
      for i := 0 to |held|
        invariant Elements(held[..i]) <= locks.Keys
        invariant holds == TrimmedHolds(old(holds), locks, Elements(held[..i]), run)
      {
        assert held[i] in Elements(held);
        assert Elements(held[..i + 1]) == Elements(held[..i]) + {held[i]};
        TrimOneHold(old(holds), locks, Elements(held[..i]), held[i], run);
        holds := holds[held[i] := Hold(locks[held[i]].version, run)];
      }
      assert held[..|held|] == held;
    }

    /** `trim`, once its refusals are past. */
    method Run(base: Commit, head: Commit, held: seq<Name>, run: string)
      requires head.lock == Some(lock) && head.files == files && head.holds == Holds(holds)
      requires Elements(held) <= LocksOf(head.lock).Keys
      modifies this
      ensures Trim(base, head, Elements(held), run)
           == Trimmed(head.(lock := Some(lock), lockText := INDENTED, files := files,
                            holds := Holds(holds), holdsText := INDENTED))
    {
      RewriteLock(LocksOf(base.lock), held);
      RestoreRecipes(base.files, held);
      RecordHolds(LocksOf(head.lock), held, run);
    }
  }

  lemma TrimNoFiles(files: map<Path, string>, base: map<Path, string>)
    ensures TrimmedFiles(files, base, {}) == files
  {
  }

  lemma TrimOneRecipe(files: map<Path, string>, base: map<Path, string>, name: Name)
    ensures (map p | p in files && !InHeldRecipe(p, {name}) :: files[p])
            + (map p | p in base && InRecipe(p, name) :: base[p])
         == TrimmedFiles(files, base, {name})
  {
  }

  lemma TrimOneHold(holds: map<Name, Hold>, locks: map<Name, Entry>, held: set<Name>, name: Name, run: string)
    requires held <= locks.Keys && name in locks
    ensures TrimmedHolds(holds, locks, held, run)[name := Hold(locks[name].version, run)]
         == TrimmedHolds(holds, locks, held + {name}, run)
  {
  }

  /** Trimming twice is trimming the union. */
  lemma TrimFilesTwice(files: map<Path, string>, base: map<Path, string>, first: set<Name>, second: set<Name>)
    ensures TrimmedFiles(TrimmedFiles(files, base, first), base, second) == TrimmedFiles(files, base, first + second)
  {
    var once := TrimmedFiles(files, base, first);
    var twice, both := TrimmedFiles(once, base, second), TrimmedFiles(files, base, first + second);
    hide TrimmedFiles;
    forall p ensures (p in twice <==> p in both) && (p in both ==> twice[p] == both[p]) {
      TrimPathTwice(files, base, first, second, p);
    }
    assert twice.Keys == both.Keys;
  }

  lemma TrimPathTwice(files: map<Path, string>, base: map<Path, string>, first: set<Name>, second: set<Name>, p: Path)
    ensures var once, both := TrimmedFiles(files, base, first), TrimmedFiles(files, base, first + second);
      var twice := TrimmedFiles(once, base, second);
      (p in twice <==> p in both) && (p in both ==> twice[p] == both[p])
  {
    var once := TrimmedFiles(files, base, first);
    assert InHeldRecipe(p, first + second) <==> InHeldRecipe(p, first) || InHeldRecipe(p, second);
    assert InHeldRecipe(p, first) || InHeldRecipe(p, second) ==> |p| >= 2;
    hide InHeldRecipe;
    assert p in once <==> if InHeldRecipe(p, first) then |p| > 2 && p in base else p in files;
  }
}
