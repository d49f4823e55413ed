/**
 tools/publish_gate.py: which files a publication removes and adds, which
 packages it reports as failed, and whether it may push at all.
 */
module PublishGate {
  import opened Common
  import opened Ordering

  type Name = string
  type Path = string
  type Digest = string

  /** One RPM: the source it was built from, its version and release, and the inputs it was built at. */
  datatype Rpm = Rpm(source: Name, versionRelease: string, builtAt: Digest)

  /** Repository-relative path to RPM. */
  type Files = map<Path, Rpm>

  /** `source_names`: file to source package. */
  function Sources(files: Files): map<Path, Name> {
    map p | p in files :: files[p].source
  }

  // ------------------------------------------------------------------ assemble

  datatype Assembly = Assembly(
    replaced: seq<Name>,
    failed: seq<Name>,
    keptPrevious: seq<Name>,
    absent: seq<Name>,
    losers: seq<Name>,
    remove: seq<Path>,
    add: seq<Path>)

  function Where(s: seq<Name>, keep: set<Name>): seq<Name> {
    if s == [] then []
    else (if s[0] in keep then [s[0]] else []) + Where(s[1..], keep)
  }

  /** Sources that built and did not lose precedence. */
  function Accepted(built: map<Path, Name>, losers: set<Name>): set<Name> {
    built.Values - losers
  }

  function PathsOf(files: map<Path, Name>, sources: set<Name>): set<Path> {
    set p | p in files && files[p] in sources
  }

  function Assemble(seed: map<Path, Name>, built: map<Path, Name>, buildList: seq<Name>, losers: set<Name>): Assembly {
    var accepted := Accepted(built, losers);
    var failed := Sorted(Elements(buildList) - accepted);
    Assembly(
      Sorted(accepted),
      failed,
      Where(failed, seed.Values),
      Where(failed, Elements(failed) - seed.Values),
      Sorted(losers * Elements(buildList)),
      Sorted(PathsOf(seed, accepted)),
      Sorted(PathsOf(built, accepted)))
  }

  // --------------------------------------------------------------------- apply

  /** What the repository holds once a publication replaced the accepted sources. */
  function Candidate(seed: Files, built: Files, accepted: set<Name>): Files {
    map p | p in seed.Keys + built.Keys
            && ((p in built && built[p].source in accepted) || (p in seed && seed[p].source !in accepted)) ::
      if p in built && built[p].source in accepted then built[p] else seed[p]
  }

  function Restrict(files: Files, paths: set<Path>): Files {
    map p | p in files && p in paths :: files[p]
  }

  // ------------------------------------------------------------------- pruning

  /** `%{SOURCERPM}` */
  function SourceRpm(rpm: Rpm): string {
    rpm.source + "-" + rpm.versionRelease + ".src.rpm"
  }

  /** `case "$source_rpm" in "$source"-*)` */
  predicate PruneMatches(rpm: Rpm, name: Name) {
    name + "-" <= SourceRpm(rpm)
  }

  predicate PrunedAway(rpm: Rpm, names: set<Name>) {
    exists name | name in names :: PruneMatches(rpm, name)
  }

  function Pruned(files: Files, names: set<Name>): Files {
    map f | f in files && !PrunedAway(files[f], names) :: files[f]
  }

  /** Neither name goes on from the other with a dash. */
  predicate Apart(name: Name, source: Name) {
    name != source && !(name + "-" <= source) && !(source + "-" <= name)
  }

  /** What the pattern matches, by names: the source, a source that goes on from it, or a version that does. */
  lemma PruneMatchesNames(rpm: Rpm, name: Name)
    ensures PruneMatches(rpm, name)
      <==> (|| name == rpm.source
            || name + "-" <= rpm.source
            || (rpm.source + "-" <= name && name[|rpm.source| + 1..] + "-" <= rpm.versionRelease + ".src.rpm"))
  {
    var s, rest := rpm.source, rpm.versionRelease + ".src.rpm";
    var whole := s + "-" + rest;
    assert SourceRpm(rpm) == whole;
    assert whole[..|s|] == s && whole[|s|] == '-' && whole[|s| + 1..] == rest;
    if |name| < |s| {
      assert whole[..|name| + 1] == s[..|name| + 1];
    } else if |name| > |s| {
      var tail := name[|s| + 1..];
      if PruneMatches(rpm, name) {
        assert name[..|s| + 1] == whole[..|s| + 1] == s + "-";
        assert (name + "-")[|s| + 1..] == tail + "-";
      }
      if s + "-" <= name && tail + "-" <= rest {
        assert name == s + "-" + tail;
        assert name + "-" == s + "-" + (tail + "-");
      }
    } else {
      assert whole[..|name|] == s;
    }
  }

  // --------------------------------------------------------- deletion by file name

  /** A shell pattern whose only wildcard is `*`. */
  predicate Matches(pattern: string, name: string)
    decreases |pattern|, |name|
  {
    if pattern == "" then name == ""
    else if pattern[0] == '*' then Matches(pattern[1..], name) || (name != "" && Matches(pattern, name[1..]))
    else name != "" && name[0] == pattern[0] && Matches(pattern[1..], name[1..])
  }

  const BOOTSTRAP_FILES: seq<string> := ["*-0.bootstrap.*.rpm"]
  const ICU_FILES: seq<string> := ["libicu-*.bfin.*.rpm", "icu-*.bfin.*.rpm"]

  predicate Named(path: Path, patterns: seq<string>) {
    exists i | 0 <= i < |patterns| :: Matches(patterns[i], BaseName(path))
  }

  function Unnamed(files: Files, patterns: seq<string>): Files {
    map f | f in files && !Named(f, patterns) :: files[f]
  }

  function Kept(files: Files): Files {
    Unnamed(Unnamed(files, BOOTSTRAP_FILES), ICU_FILES)
  }

  /** The publish job deletes the file, whatever was built and whatever is pruned. */
  predicate Swept(path: Path) {
    Named(path, BOOTSTRAP_FILES) || Named(path, ICU_FILES)
  }

  /** `text` may have anything before it. */
  lemma {:induction false} StarMatches(rest: string, name: string)
    ensures Matches("*" + rest, name) <==> exists k | 0 <= k <= |name| :: Matches(rest, name[k..])
    decreases |name|
  {
    assert ("*" + rest)[1..] == rest && name[0..] == name;
    if name != "" {
      StarMatches(rest, name[1..]);
      forall k | 0 < k <= |name| ensures name[k..] == name[1..][k - 1..] {}
      if k :| 0 <= k <= |name| && Matches(rest, name[k..]) && k > 0 { assert Matches(rest, name[1..][k - 1..]); }
      if k :| 0 <= k <= |name| - 1 && Matches(rest, name[1..][k..]) { assert Matches(rest, name[k + 1..]); }
    }
  }

  lemma {:induction false} TextMatches(text: string, rest: string, name: string)
    requires '*' !in text
    ensures Matches(text + rest, name) <==> text <= name && Matches(rest, name[|text|..])
    decreases |text|
  {
    if text == "" {
      assert text + rest == rest && name[0..] == name;
    } else {
      assert (text + rest)[0] == text[0] && (text + rest)[1..] == text[1..] + rest;
      if name != "" {
        TextMatches(text[1..], rest, name[1..]);
        if name[0] == text[0] && text[1..] <= name[1..] {
          assert text <= name && name[1..][|text| - 1..] == name[|text|..];
        }
      }
    }
  }

  lemma EndMatches(tail: string, name: string)
    requires '*' !in tail
    ensures Matches("*" + tail, name) <==> exists b :: name == b + tail
  {
    StarMatches(tail, name);
    assert tail + "" == tail;
    forall k | 0 <= k <= |name| ensures Matches(tail, name[k..]) <==> name == name[..k] + tail {
      TextMatches(tail, "", name[k..]);
    }
    if b :| name == b + tail { assert name[..|b|] == b; }
  }

  lemma MidMatches(mid: string, tail: string, name: string)
    requires '*' !in mid && '*' !in tail
    ensures Matches(mid + ("*" + tail), name) <==> exists b :: name == mid + b + tail
  {
    hide Matches;
    TextMatches(mid, "*" + tail, name);
    EndMatches(tail, name[if |mid| <= |name| then |mid| else 0..]);
    if b :| name == mid + b + tail { assert name[|mid|..] == b + tail; }
    if mid <= name {
      if b :| name[|mid|..] == b + tail { assert name == mid + b + tail; }
    }
  }

  ghost predicate Shaped(name: string, lead: string, mid: string, tail: string) {
    exists a, b :: name == lead + a + mid + b + tail
  }

  /** What a pattern of two stars says of a name. */
  lemma MatchesParts(lead: string, mid: string, tail: string, name: string)
    requires '*' !in lead && '*' !in mid && '*' !in tail
    ensures Matches(lead + ("*" + (mid + ("*" + tail))), name) <==> Shaped(name, lead, mid, tail)
  {
    hide Matches;
    var rest := mid + ("*" + tail);
    TextMatches(lead, "*" + rest, name);
    if lead <= name {
      var after := name[|lead|..];
      StarMatches(rest, after);
      forall k | 0 <= k <= |after| {
        MidMatches(mid, tail, after[k..]);
      }
      if k, b :| 0 <= k <= |after| && after[k..] == mid + b + tail {
        assert name == lead + after[..k] + mid + b + tail;
      }
    }
    if a, b :| name == lead + a + mid + b + tail {
      assert name[|lead|..][|a|..] == mid + b + tail;
    }
  }

  /** By file name: which files the publish job deletes. */
  lemma SweptNames(path: Path)
    ensures var name := BaseName(path);
      Swept(path) <==>
        || Shaped(name, "", "-0.bootstrap.", ".rpm")
        || Shaped(name, "libicu-", ".bfin.", ".rpm")
        || Shaped(name, "icu-", ".bfin.", ".rpm")
  {
    hide Matches, BaseName, Shaped;
    var name := BaseName(path);
    MatchesParts("", "-0.bootstrap.", ".rpm", name);
    MatchesParts("libicu-", ".bfin.", ".rpm", name);
    MatchesParts("icu-", ".bfin.", ".rpm", name);
    assert "" + ("*" + ("-0.bootstrap." + ("*" + ".rpm"))) == BOOTSTRAP_FILES[0];
    assert "libicu-" + ("*" + (".bfin." + ("*" + ".rpm"))) == ICU_FILES[0];
    assert "icu-" + ("*" + (".bfin." + ("*" + ".rpm"))) == ICU_FILES[1];
    assert Named(path, BOOTSTRAP_FILES) <==> Matches(BOOTSTRAP_FILES[0], name);
    assert Named(path, ICU_FILES) <==> Matches(ICU_FILES[0], name) || Matches(ICU_FILES[1], name);
  }

  lemma KeptIs(files: Files)
    ensures Kept(files) == map f | f in files && !Swept(f) :: files[f]
  {
    hide Named;
  }

  /** The seeded repository on disk. */
  class Store {
    var files: Files

    constructor (seed: Files)
      ensures files == seed
    {
      files := seed;
    }

    /** `for path in assembly.remove: Path(path).unlink()` */
    method Unlink(paths: seq<Path>)
      requires Elements(paths) <= files.Keys
      modifies this
      ensures files == old(files) - Elements(paths)
    {
      for i := 0 to |paths|
        invariant files == old(files) - Elements(paths[..i])
      {
        ElementsNext(paths, i);
        files := files - {paths[i]};
      }
      assert paths[..|paths|] == paths;
    }

    /** `for path in assembly.add: shutil.copy2(source, target)` */
    method CopyIn(paths: seq<Path>, built: Files)
      requires Elements(paths) <= built.Keys
      modifies this
      ensures files == old(files) + Restrict(built, Elements(paths))
    {
      RestrictNone(built);
      for i := 0 to |paths|
        invariant files == old(files) + Restrict(built, Elements(paths[..i]))
      {
        assert paths[i] in Elements(paths);
        ElementsNext(paths, i);
        RestrictNext(built, Elements(paths[..i]), paths[i]);
        files := files[paths[i] := built[paths[i]]];
      }
      assert paths[..|paths|] == paths;
    }

    /** `apply` */
    method Apply(assembly: Assembly, built: Files)
      requires Elements(assembly.remove) <= files.Keys && Elements(assembly.add) <= built.Keys
      modifies this
      ensures files == (old(files) - Elements(assembly.remove)) + Restrict(built, Elements(assembly.add))
    {
      Unlink(assembly.remove);
      CopyIn(assembly.add, built);
    }

    /** The publish job's clean-up: every RPM whose source RPM one of the patterns `"$source"-*` matches. */
    method Prune(names: seq<Name>)
      modifies this
      ensures files == Pruned(old(files), Elements(names))
    {
      hide PruneMatches;
      var left := files.Keys;
      while left != {}
        invariant left <= old(files).Keys
        invariant files == map f | f in old(files) && (f in left || !PrunedAway(old(files)[f], Elements(names))) ::
            old(files)[f]
        decreases left
      {
        var path :| path in left;
        left := left - {path};
        var matched := false;
        for i := 0 to |names|
          invariant !matched && forall j | 0 <= j < i :: !PruneMatches(files[path], names[j])
        {
          if PruneMatches(files[path], names[i]) {
            assert names[i] in Elements(names);
            matched := true;
            break;
          }
        }
        assert matched <==> PrunedAway(files[path], Elements(names));
        if matched {
          files := files - {path};
        }
      }
    }

    /** `find repository -name ... -o -name ... | xargs rm -f` */
    method DeleteNamed(patterns: seq<string>)
      modifies this
      ensures files == Unnamed(old(files), patterns)
    {
      hide Matches, BaseName;
      var left := files.Keys;
      while left != {}
        invariant left <= old(files).Keys
        invariant files == map f | f in old(files) && (f in left || !Named(f, patterns)) :: old(files)[f]
        decreases left
      {
        var path :| path in left;
        left := left - {path};
        var matched := false;
        for i := 0 to |patterns|
          invariant matched <==> exists j | 0 <= j < i :: Matches(patterns[j], BaseName(path))
        {
          if Matches(patterns[i], BaseName(path)) {
            matched := true;
          }
        }
        assert matched <==> Named(path, patterns);
        if matched {
          files := files - {path};
        }
      }
    }

    /** The two deletions by file name that follow the pruning in every publication. */
    method CleanUp()
      modifies this
      ensures files == Kept(old(files))
    {
      hide Unnamed;
      DeleteNamed(BOOTSTRAP_FILES);
      DeleteNamed(ICU_FILES);
    }

    /** `assemble` and `apply` together. */
    method Replace(built: Files, buildList: seq<Name>, losers: set<Name>) returns (assembly: Assembly)
      modifies this
      ensures assembly == Assemble(Sources(old(files)), Sources(built), buildList, losers)
      ensures files == Candidate(old(files), built, Accepted(Sources(built), losers))
    {
      hide Candidate, Where, Accepted;
      assembly := Assemble(Sources(files), Sources(built), buildList, losers);
      CandidateIs(files, built, Accepted(Sources(built), losers), assembly);
      Apply(assembly, built);
    }
  }

  lemma ElementsNext(s: seq<string>, i: nat)
    requires i < |s|
    ensures Elements(s[..i + 1]) == Elements(s[..i]) + {s[i]}
  {
  }

  lemma RestrictNone(files: Files)
    ensures Restrict(files, {}) == map[]
  {
  }

  lemma RestrictNext(files: Files, paths: set<Path>, p: Path)
    requires p in files
    ensures Restrict(files, paths + {p}) == Restrict(files, paths)[p := files[p]]
  {
  }

  /** Removing and adding what `assemble` lists leaves the candidate. */
  lemma CandidateIs(seed: Files, built: Files, accepted: set<Name>, a: Assembly)
    requires a.remove == Sorted(PathsOf(Sources(seed), accepted)) && a.add == Sorted(PathsOf(Sources(built), accepted))
    ensures Elements(a.remove) <= seed.Keys && Elements(a.add) <= built.Keys
    ensures (seed - Elements(a.remove)) + Restrict(built, Elements(a.add)) == Candidate(seed, built, accepted)
  {
    hide StrictlySorted;
    assert Elements(a.remove) == PathsOf(Sources(seed), accepted);
    assert Elements(a.add) == PathsOf(Sources(built), accepted);
    CandidatePaths(seed, built, accepted, Elements(a.remove), Elements(a.add));
  }

  lemma CandidatePaths(seed: Files, built: Files, accepted: set<Name>, remove: set<Path>, add: set<Path>)
    requires forall p :: p in remove <==> p in seed && seed[p].source in accepted
    requires forall p :: p in add <==> p in built && built[p].source in accepted
    ensures (seed - remove) + Restrict(built, add) == Candidate(seed, built, accepted)
  {
    var after := (seed - remove) + Restrict(built, add);
    forall p ensures p in after <==> p in Candidate(seed, built, accepted) {}
    forall p | p in after ensures after[p] == Candidate(seed, built, accepted)[p] {}
  }

  // ------------------------------------------------------------ what it promises

  function FilesOf(files: Files, s: Name): Files {
    map p | p in files && files[p].source == s :: files[p]
  }

  /** `s` owns exactly its new files if it was accepted, exactly its old ones otherwise. */
  ghost predicate OwnsExactly(seed: Files, built: Files, accepted: set<Name>, s: Name) {
    FilesOf(Candidate(seed, built, accepted), s) == if s in accepted then FilesOf(built, s) else FilesOf(seed, s)
  }

  /** No accepted build lands on a file of a source that stays. */
  ghost predicate PathsDistinct(seed: Files, built: Files, accepted: set<Name>) {
    forall p | p in seed && p in built && built[p].source in accepted :: seed[p].source in accepted
  }

  /** Never a mixture: for every source at once, exactly when no accepted build overwrites a file that stays. */
  lemma NeverAMixture(seed: Files, built: Files, accepted: set<Name>)
    ensures (forall s :: OwnsExactly(seed, built, accepted, s)) <==> PathsDistinct(seed, built, accepted)
  {
    var after := Candidate(seed, built, accepted);
    if PathsDistinct(seed, built, accepted) {
      forall s ensures OwnsExactly(seed, built, accepted, s) {
        assert FilesOf(after, s).Keys == (if s in accepted then FilesOf(built, s) else FilesOf(seed, s)).Keys;
      }
    }
    if forall s :: OwnsExactly(seed, built, accepted, s) {
      forall p | p in seed && p in built && built[p].source in accepted ensures seed[p].source in accepted {
        var s := seed[p].source;
        assert OwnsExactly(seed, built, accepted, s);
        assert p in FilesOf(seed, s);
        assert p in after && after[p] == built[p];
      }
    }
  }

  /** A build of `b` that lands on the only file of `a` leaves `a` with neither its old files nor new ones. */
  lemma MixtureExample(a: Name, b: Name, digest: Digest)
    requires a != b
    ensures var seed: Files, built: Files := map["x.rpm" := Rpm(a, "1-1", digest)],
        map["x.rpm" := Rpm(b, "1-1", digest)];
      && Accepted(Sources(built), {}) == {b}
      && !PathsDistinct(seed, built, {b}) && !OwnsExactly(seed, built, {b}, a)
  {
    var seed: Files, built: Files := map["x.rpm" := Rpm(a, "1-1", digest)], map["x.rpm" := Rpm(b, "1-1", digest)];
    assert Sources(built) == map["x.rpm" := b] && Sources(built)["x.rpm"] == b;
    assert "x.rpm" in FilesOf(seed, a) && "x.rpm" !in FilesOf(Candidate(seed, built, {b}), a);
  }

  lemma {:induction false} WhereMember(s: seq<Name>, keep: set<Name>, n: Name)
    ensures n in Where(s, keep) <==> n in s && n in keep
    decreases |s|
  {
    if s != [] {
      WhereMember(s[1..], keep, n);
      assert s == [s[0]] + s[1..];
    }
  }

  /** Every selected package is replaced or failed, never both; every failure keeps its old build or stays absent. */
  lemma ReportAccounts(seed: map<Path, Name>, built: map<Path, Name>, buildList: seq<Name>, losers: set<Name>, n: Name)
    ensures var a := Assemble(seed, built, buildList, losers);
            && (n in buildList ==> (n in a.replaced) != (n in a.failed))
            && !(n in a.replaced && n in a.failed)
            && (n in a.failed ==> n in buildList && (n in a.keptPrevious) != (n in a.absent))
            && (n in a.keptPrevious <==> n in a.failed && exists p :: p in seed && seed[p] == n)
            && (n in a.losers ==> n in a.failed)
            && (n in a.losers <==> n in losers && n in buildList)
            && (n in a.replaced <==> n !in losers && exists p :: p in built && built[p] == n)
            && (forall p :: p in a.remove <==> p in seed && seed[p] in a.replaced)
            && (forall p :: p in a.add <==> p in built && built[p] in a.replaced)
  {
    var a := Assemble(seed, built, buildList, losers);
    assert n in built.Values <==> exists p :: p in built && built[p] == n;
    WhereMember(a.failed, seed.Values, n);
    WhereMember(a.failed, Elements(a.failed) - seed.Values, n);
  }

  // -------------------------------------------------- bootstrap builds, the gate

  predicate Contains(s: string, sub: string)
    decreases |s|
  {
    sub <= s || (s != "" && Contains(s[1..], sub))
  }

  /** `Path(path).name` */
  function BaseName(path: Path): (name: string)
    decreases |path|
  {
    if path == "" then ""
    else if path[|path| - 1] == '/' then ""
    else BaseName(path[..|path| - 1]) + [path[|path| - 1]]
  }

  /** `BOOTSTRAP_RPM.search(Path(path).name)` */
  predicate IsBootstrap(path: Path) {
    Contains(BaseName(path), "-0.bootstrap.")
  }

  /** `publishable`: the built RPMs that may enter the repository. */
  function Publishable(built: Files): Files {
    map p | p in built && !IsBootstrap(p) :: built[p]
  }

  predicate AnyBootstrap(everything: Files) {
    exists f | f in everything :: IsBootstrap(f)
  }

  lemma {:induction false} ContainsAfter(a: string, sub: string, rest: string)
    ensures Contains(a + sub + rest, sub)
    decreases |a|
  {
    if a == "" {
      assert a + sub + rest == sub + rest;
    } else {
      assert (a + sub + rest)[1..] == a[1..] + sub + rest;
      ContainsAfter(a[1..], sub, rest);
    }
  }

  lemma {:induction false} ContainsIff(s: string, part: string)
    ensures Contains(s, part) <==> exists a, b :: s == a + part + b
    decreases |s|
  {
    if part <= s { assert s == "" + part + s[|part|..]; }
    if s != "" {
      ContainsIff(s[1..], part);
      if a, b :| s[1..] == a + part + b { assert s == ([s[0]] + a) + part + b; }
    }
    if a, b :| s == a + part + b { ContainsAfter(a, part, b); }
  }

  lemma {:induction false} BaseNameOf(directory: string, name: string)
    requires '/' !in name
    ensures BaseName(directory + "/" + name) == name
    decreases |name|
  {
    var path := directory + "/" + name;
    if name == "" {
      assert path[|path| - 1] == '/';
    } else {
      assert path[|path| - 1] == name[|name| - 1];
      assert path[..|path| - 1] == directory + "/" + name[..|name| - 1];
      BaseNameOf(directory, name[..|name| - 1]);
    }
  }

  /** A file is a bootstrap RPM by its own name, whatever directory it lies in; a recipe by how its name ends. */
  lemma BootstrapIff(directory: string, name: string)
    requires '/' !in name
    ensures IsBootstrap(directory + "/" + name) <==> exists a, b :: name == a + "-0.bootstrap." + b
    ensures IsBootstrapRecipe(name) <==> exists stem :: name == stem + "-bootstrap"
  {
    BaseNameOf(directory, name);
    ContainsIff(name, "-0.bootstrap.");
    if IsBootstrapRecipe(name) { assert name == name[..|name| - 10] + "-bootstrap"; }
    if stem :| name == stem + "-bootstrap" { assert name[|name| - 10..] == "-bootstrap"; }
  }

  /** All bootstrap recipes of the build list count as done, as soon as there is one bootstrap file. */
  lemma BootstrappedIff(everything: Files, buildList: seq<Name>, n: Name)
    ensures n in Bootstrapped(everything, buildList) <==>
      && n in buildList && (exists stem :: n == stem + "-bootstrap")
      && exists f, a, b :: f in everything && BaseName(f) == a + "-0.bootstrap." + b
  {
    if IsBootstrapRecipe(n) { assert n == n[..|n| - 10] + "-bootstrap"; }
    if stem :| n == stem + "-bootstrap" { assert n[|n| - 10..] == "-bootstrap"; }
    forall f ensures IsBootstrap(f) <==> exists a, b :: BaseName(f) == a + "-0.bootstrap." + b {
      ContainsIff(BaseName(f), "-0.bootstrap.");
    }
    hide IsBootstrap, IsBootstrapRecipe, BaseName;
  }

  /** Of what may enter the repository only `icu` and `libicu` files are deleted again. */
  lemma PublishableSwept(path: Path)
    requires !IsBootstrap(path)
    ensures Swept(path) <==>
      Shaped(BaseName(path), "libicu-", ".bfin.", ".rpm") || Shaped(BaseName(path), "icu-", ".bfin.", ".rpm")
  {
    SweptNames(path);
    var name, mid := BaseName(path), "-0.bootstrap.";
    hide Swept, Contains, BaseName;
    if a, b :| name == "" + a + mid + b + ".rpm" {
      assert name == a + mid + (b + ".rpm");
      ContainsAfter(a, mid, b + ".rpm");
    }
  }

  /** `bootstrapped`: the bootstrap recipes of the build list, all done once any bootstrap RPM is there. */
  function Bootstrapped(everything: Files, buildList: seq<Name>): set<Name> {
    set n | n in buildList && IsBootstrapRecipe(n) && AnyBootstrap(everything)
  }

  /** `name.endswith("-bootstrap")` */
  predicate IsBootstrapRecipe(n: Name) {
    var suffix := "-bootstrap";
    |n| >= |suffix| && n[|n| - |suffix|..] == suffix
  }

  /** `publish_allowed`; the wave results are an argument that nothing reads. */
  predicate PublishAllowed(stages: seq<string>, precedence: string, transactionResolved: bool,
                           isForkPullRequest: bool, replaced: nat, pruned: nat) {
    !isForkPullRequest && precedence == "success" && transactionResolved && replaced + pruned > 0
  }

  // ------------------------------------------------------- failures by artifact

  predicate IsDigit(c: char) {
    '0' <= c <= '9'
  }

  /** The rest after one or more digits and a dash. */
  function AfterStage(s: string, digitSeen: bool): Option<string> {
    if s == "" then None
    else if IsDigit(s[0]) then AfterStage(s[1..], true)
    else if s[0] == '-' && digitSeen && s != "-" then Some(s[1..])
    else None
  }

  /** The package an artifact name `<prefix>rpm-s<stage>-<package>` stands for. */
  function PackageOf(artifact: string, prefix: string): Option<Name> {
    if prefix + "rpm-s" <= artifact then AfterStage(artifact[|prefix| + 5..], false) else None
  }

  ghost predicate Uploaded(artifacts: seq<string>, prefix: string, n: Name) {
    exists i :: 0 <= i < |artifacts| && PackageOf(artifacts[i], prefix) == Some(n)
  }

  method FailuresFromArtifacts(buildList: seq<Name>, artifacts: seq<string>, prefix: string, losers: set<Name>)
    returns (failures: seq<Name>)
    ensures forall n :: n in failures <==> n in buildList && (n in losers || !Uploaded(artifacts, prefix, n))
    ensures StrictlySorted(failures)
  {
    var built: set<Name> := {};
    for i := 0 to |artifacts|
      invariant forall n :: n in built <==> exists j :: 0 <= j < i && PackageOf(artifacts[j], prefix) == Some(n)
    {
      var package := PackageOf(artifacts[i], prefix);
      if package.Some? {
        built := built + {package.value};
      }
    }
    failures := Sorted((Elements(buildList) - built) + losers * Elements(buildList));
  }

  /** Build jobs that upload under the agreed name are read back under their own name. */
  lemma {:induction false} ArtifactNameRoundTrip(prefix: string, stage: string, package: Name)
    requires stage != "" && (forall i | 0 <= i < |stage| :: IsDigit(stage[i])) && package != ""
    ensures PackageOf(prefix + "rpm-s" + stage + "-" + package, prefix) == Some(package)
  {
    var artifact := prefix + "rpm-s" + stage + "-" + package;
    assert artifact[|prefix| + 5..] == stage + ("-" + package);
    StageSkipped(stage, package, false);
  }

  ghost predicate StageDigits(stage: string) {
    stage != "" && forall i | 0 <= i < |stage| :: '0' <= stage[i] <= '9'
  }

  /** What stands behind a stage and a dash. */
  lemma {:induction false} StageRead(s: string, digitSeen: bool) returns (stage: string)
    requires AfterStage(s, digitSeen).Some?
    ensures (digitSeen || stage != "") && forall i | 0 <= i < |stage| :: '0' <= stage[i] <= '9'
    ensures s == stage + ("-" + AfterStage(s, digitSeen).value) && AfterStage(s, digitSeen).value != ""
    decreases |s|
  {
    if IsDigit(s[0]) {
      var rest := StageRead(s[1..], true);
      stage := [s[0]] + rest;
      assert s == [s[0]] + s[1..];
    } else {
      stage := "";
      assert s == "-" + s[1..];
    }
  }

  /** An artifact stands for a package exactly when it is named prefix, `rpm-s`, stage, dash and package. */
  lemma ArtifactIff(prefix: string, artifact: string, package: Name)
    ensures PackageOf(artifact, prefix) == Some(package) <==>
              package != ""
              && exists stage :: StageDigits(stage) && artifact == prefix + "rpm-s" + stage + "-" + package
  {
    var head := prefix + "rpm-s";
    if PackageOf(artifact, prefix) == Some(package) {
      var stage := StageRead(artifact[|head|..], false);
      assert artifact == head + artifact[|head|..];
      assert artifact == prefix + "rpm-s" + stage + "-" + package;
    }
    if stage :| package != "" && StageDigits(stage) && artifact == prefix + "rpm-s" + stage + "-" + package {
      assert artifact[|head|..] == stage + ("-" + package);
      assert head <= artifact;
      StageSkipped(stage, package, false);
    }
  }

  lemma {:induction false} StageSkipped(stage: string, package: Name, digitSeen: bool)
    requires (digitSeen || stage != "") && (forall i | 0 <= i < |stage| :: IsDigit(stage[i])) && package != ""
    ensures AfterStage(stage + ("-" + package), digitSeen) == Some(package)
    decreases |stage|
  {
    if stage == "" {
      assert stage + ("-" + package) == "-" + package;
    } else {
      assert (stage + ("-" + package))[1..] == stage[1..] + ("-" + package);
      StageSkipped(stage[1..], package, true);
    }
  }

  /**
   `recipe` says which recipe's build made each RPM: an ordinary RPM carries its recipe's name as its source,
   a bootstrap RPM is made by a `-bootstrap` recipe under another source name.
   */
  ghost predicate MadeBy(everything: Files, recipe: map<Path, Name>) {
    && recipe.Keys == everything.Keys
    && forall f | f in everything ::
         if IsBootstrap(f) then IsBootstrapRecipe(recipe[f]) else recipe[f] == everything[f].source
  }

  lemma OrdinaryMakers(everything: Files, recipe: map<Path, Name>, buildList: seq<Name>, n: Name)
    requires MadeBy(everything, recipe) && n in buildList && n !in Bootstrapped(everything, buildList)
    ensures n in recipe.Values <==> n in Sources(Publishable(everything)).Values
  {
    hide IsBootstrap, IsBootstrapRecipe;
    var ordinary := Sources(Publishable(everything));
    forall f | f in recipe && recipe[f] == n ensures f in ordinary && ordinary[f] == n {}
    forall f | f in ordinary && ordinary[f] == n ensures f in recipe && recipe[f] == n {}
  }

  /**
   The report job, from artifact names, and the publish job, from RPM headers, name the same failures:
   exactly when every bootstrap recipe counted as done left an artifact of its own and lost no precedence.
   */
  lemma FailuresAgree(seed: map<Path, Name>, everything: Files, recipe: map<Path, Name>, buildList: seq<Name>,
                      losers: set<Name>, artifacts: seq<string>, prefix: string, failures: seq<Name>)
    requires MadeBy(everything, recipe)
    requires forall n | n in buildList :: Uploaded(artifacts, prefix, n) <==> n in recipe.Values
    requires forall n :: n in failures <==> n in buildList && (n in losers || !Uploaded(artifacts, prefix, n))
    requires StrictlySorted(failures)
    ensures var done := Bootstrapped(everything, buildList);
      failures == Assemble(seed, Sources(Publishable(everything)), Where(buildList, Elements(buildList) - done),
          losers).failed
      <==> forall n | n in done :: n in recipe.Values && n !in losers
  {
    hide Uploaded, IsBootstrap, IsBootstrapRecipe, StrictlySorted, MadeBy, Bootstrapped;
    var done := Bootstrapped(everything, buildList);
    assert forall n | n in done :: n in buildList by { BootstrappedListed(everything, buildList); }
    var rest := Where(buildList, Elements(buildList) - done);
    var failed := Assemble(seed, Sources(Publishable(everything)), rest, losers).failed;
    forall n ensures n in failed <==> n in failures && n !in done {
      WhereMember(buildList, Elements(buildList) - done, n);
      if n in buildList && n !in done { OrdinaryMakers(everything, recipe, buildList, n); }
    }
    if forall n | n in done :: n !in failures {
      SortedUnique(failures, failed);
    } else {
      var n :| n in done && n in failures;
      assert n !in failed;
    }
  }

  lemma BootstrappedListed(everything: Files, buildList: seq<Name>)
    ensures forall n | n in Bootstrapped(everything, buildList) :: n in buildList
  {
  }

  /** Two strictly sorted lists of the same names are equal. */
  lemma {:induction false} SortedUnique(a: seq<string>, b: seq<string>)
    requires StrictlySorted(a) && StrictlySorted(b) && forall x :: x in a <==> x in b
    ensures a == b
    decreases |a|
  {
    hide Leq;
    assert a != [] ==> a[0] in b;
    assert b != [] ==> b[0] in a;
    if a != [] {
      SameFirst(a, b);
      forall x ensures x in a[1..] <==> x in b[1..] {
        TailMember(a, x);
        TailMember(b, x);
      }
      SortedUnique(a[1..], b[1..]);
      assert a == [a[0]] + a[1..] && b == [b[0]] + b[1..];
    }
  }

  lemma TailMember(a: seq<string>, x: string)
    requires a != [] && StrictlySorted(a)
    ensures x in a[1..] <==> x in a && x != a[0]
  {
    if x in a[1..] {
      var i :| 0 <= i < |a| - 1 && a[1..][i] == x;
      assert Less(a[0], a[i + 1]);
    }
    if x in a && x != a[0] {
      var i :| 0 <= i < |a| && a[i] == x;
      assert a[1..][i - 1] == x;
    }
  }

  lemma SameFirst(a: seq<string>, b: seq<string>)
    requires a != [] && b != [] && StrictlySorted(a) && StrictlySorted(b) && forall x :: x in a <==> x in b
    ensures a[0] == b[0]
  {
    assert a[0] in b && b[0] in a;
    var i :| 0 <= i < |b| && b[i] == a[0];
    var j :| 0 <= j < |a| && a[j] == b[0];
    if i > 0 && j > 0 {
      assert Less(b[0], b[i]) && Less(a[0], a[j]);
      LeqAntisymmetric(a[0], b[0]);
    }
  }
}
