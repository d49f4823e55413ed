/**
 tools/rawhide_reimport.py: when a Fedora recipe may be imported again without
 a human, and what the import leaves.

 A tree maps paths to contents; `parse` stands for the fields read off a spec.
 */
module RawhideReimport {
  import opened Common

  type Path = string

  type Tree = map<Path, string>

  const FACTORY_FILE: Path := ".hummingbird-upstream.json"
  const SOURCES: Path := "sources"
  const INERT_FILES: set<Path> := {
    ".gitignore", ".mailmap", ".packit.yaml", "README.packit", "README.md",
    "monitoring.toml", "gating.yaml", "rpminspect.yaml", "ci.fmf", "plans.fmf"}

  // ----------------------------------------------------------------- what a build sees

  predicate IsSpec(path: Path) {
    '/' !in path && |path| >= 5 && path[|path| - 5..] == ".spec"
  }

  function Specs(tree: Tree): set<Path> {
    set path | path in tree && IsSpec(path)
  }

  datatype Spec = Spec(path: Path, text: string)

  /** `single_spec` */
  function SingleSpec(tree: Tree): Option<Spec> {
    if exists path | path in Specs(tree) :: Specs(tree) == {path} then
      assert forall p, q | Specs(tree) == {p} && Specs(tree) == {q} :: p == q by {
        forall p, q | Specs(tree) == {p} && Specs(tree) == {q} ensures p == q { assert p in {q}; }
      }
      var path :| path in Specs(tree) && Specs(tree) == {path};
      Some(Spec(path, tree[path]))
    else None
  }

  function SpecText(tree: Tree): string {
    if SingleSpec(tree).Some? then SingleSpec(tree).value.text else ""
  }

  predicate Occurs(part: string, text: string) {
    exists i | 0 <= i <= |text| :: part <= text[i..]
  }

  /** Fedora's own metadata, by its place in the tree. */
  predicate Metadata(path: Path) {
    path in INERT_FILES || ".fmf/" <= path || "plans/" <= path || "tests/" <= path
  }

  /** `inert` */
  predicate Inert(path: Path, spec: string) {
    Metadata(path) && !Occurs(path, spec)
  }

  /** `omitted_inert` */
  function OmittedInert(local: Tree, pinned: Tree): set<Path> {
    set path | path in pinned && path !in local && Inert(path, SpecText(pinned))
  }

  /** `build_inputs` */
  function BuildInputs(tree: Tree): Tree {
    map path | path in tree && !Inert(path, SpecText(tree)) :: tree[path]
  }

  /** `divergence`, as the three sets its reasons list. */
  datatype Divergence = Divergence(edited: set<Path>, added: set<Path>, dropped: set<Path>)

  const NONE := Divergence({}, {}, {})

  function Diverges(local: Tree, pinned: Tree): Divergence {
    var ours := local - {FACTORY_FILE};
    var theirs := pinned - OmittedInert(ours, pinned);
    Divergence((set path | path in ours && path in theirs && ours[path] != theirs[path]),
               ours.Keys - theirs.Keys,
               theirs.Keys - ours.Keys)
  }

  /** Metadata is inert exactly when the spec nowhere holds its path. */
  lemma InertIff(path: Path, spec: string)
    ensures Inert(path, spec) <==> Metadata(path) && !exists before, after :: spec == before + path + after
  {
    if i :| 0 <= i <= |spec| && path <= spec[i..] {
      assert spec == spec[..i] + path + spec[i..][|path|..];
    }
    if before, after :| spec == before + path + after {
      assert path <= spec[|before|..];
    }
    hide Metadata;
  }

  /** A file the spec names is a build input, and one it does not name is, unless it is metadata. */
  lemma BuildInputsIff(tree: Tree, path: Path)
    ensures path in BuildInputs(tree) <==>
              path in tree && (!Metadata(path) || exists before, after :: SpecText(tree) == before + path + after)
    ensures path in BuildInputs(tree) ==> BuildInputs(tree)[path] == tree[path]
  {
    InertIff(path, SpecText(tree));
    hide Metadata, Inert, SpecText;
  }

  /** Which files Fedora's metadata are. */
  lemma MetadataIs(name: string)
    ensures Metadata(".fmf/" + name) && Metadata("plans/" + name) && Metadata("tests/" + name)
    ensures Metadata("README.md") && Metadata(".gitignore") && Metadata("gating.yaml") && !Metadata("sources")
  {
    assert ".fmf/" <= ".fmf/" + name && "plans/" <= "plans/" + name && "tests/" <= "tests/" + name;
    assert |"sources"| == 7 && "sources"[0] == 's' && "sources"[1] == 'o';
  }

  lemma IsSpecIff(path: Path)
    ensures IsSpec(path) <==> '/' !in path && exists stem :: path == stem + ".spec"
  {
    if IsSpec(path) { assert path == path[..|path| - 5] + ".spec"; }
    if stem :| path == stem + ".spec" { assert path[|path| - 5..] == ".spec"; }
  }

  /** A tree's spec: its one file at the top whose name ends in `.spec`. */
  lemma SingleSpecIff(tree: Tree, spec: Spec)
    ensures SingleSpec(tree) == Some(spec) <==>
      && spec.path in tree && tree[spec.path] == spec.text
      && forall path :: path in tree && '/' !in path && (exists stem :: path == stem + ".spec") <==> path == spec.path
  {
    forall path ensures path in Specs(tree) <==> path in tree && '/' !in path && exists stem :: path == stem + ".spec" {
      IsSpecIff(path);
    }
    OnlySpec(tree, spec);
    hide SingleSpec, IsSpec, Specs;
    assert Specs(tree) == {spec.path} <==> forall path :: path in Specs(tree) <==> path == spec.path;
  }

  lemma OnlySpec(tree: Tree, spec: Spec)
    ensures SingleSpec(tree) == Some(spec) <==>
              Specs(tree) == {spec.path} && spec.path in tree && tree[spec.path] == spec.text
  {
    hide IsSpec;
    if Specs(tree) == {spec.path} {
      assert spec.path in Specs(tree);
      var found := SingleSpec(tree);
      assert found.Some? && Specs(tree) == {found.value.path};
      assert found.value.path in {spec.path};
    }
  }

  /** A recipe does not diverge exactly when, the factory's file aside, it is its pin less some inert metadata. */
  lemma NoDivergenceIff(local: Tree, pinned: Tree)
    ensures Diverges(local, pinned) == NONE <==>
      && (forall path | path in local && path != ".hummingbird-upstream.json" ::
            path in pinned && local[path] == pinned[path])
      && (forall path | path in pinned ::
            || (path in local && path != ".hummingbird-upstream.json")
            || (path !in local && Inert(path, SpecText(pinned)))
            || (path == ".hummingbird-upstream.json" && Inert(path, SpecText(pinned))))
  {
    hide Inert, SpecText;
    var ours := local - {FACTORY_FILE};
    var theirs := pinned - OmittedInert(ours, pinned);
    var d := Diverges(local, pinned);
    forall path
      ensures path in d.edited <==> path in ours && path in theirs && ours[path] != theirs[path]
      ensures path in d.added <==> path in ours && path !in theirs
      ensures path in d.dropped <==> path in theirs && path !in ours
      ensures path in ours <==> path in local && path != ".hummingbird-upstream.json"
      ensures path in theirs <==> path in pinned && (path in ours || !Inert(path, SpecText(pinned)))
    {}
    hide Diverges, OmittedInert;
    if d == NONE {
      forall path | path in local && path != ".hummingbird-upstream.json"
        ensures path in pinned && local[path] == pinned[path]
      {
        assert path !in d.added && path !in d.edited;
      }
      forall path | path in pinned && !(path in local && path != ".hummingbird-upstream.json")
        ensures Inert(path, SpecText(pinned))
      {
        assert path !in d.dropped;
      }
    } else {
      assert d.edited != {} || d.added != {} || d.dropped != {};
      if path :| path in d.edited { assert ours[path] == local[path] && theirs[path] == pinned[path]; }
      if path :| path in d.added { assert path in ours; }
      if path :| path in d.dropped { assert path in theirs; }
    }
  }

  // ------------------------------------------------------------------------ the policy

  /** `fields` are the lines of Name, Epoch, Version and Release, in that order. */
  datatype Parsed = Parsed(fields: seq<seq<string>>, buildRequires: set<string>, generates: bool)

  /** What `classify` is told beside the trees. */
  datatype Facts = Facts(plainImport: bool, fastForward: bool, lock: Option<set<string>>)

  const PLAIN_LOCK_KEYS: set<string> := {
    "name", "version", "url", "filename", "sha512", "sha256_url", "fallback_urls", "feed", "stage"}

  datatype Reason =
    | NotPlainImport | NotFastForward | NoLock | LockDecides(keys: set<string>) | RecipeDiverges(how: Divergence)
    | NotOneSpec | SpecRenamed | SourcesChanged | FieldChanged(field: nat)
    | AddsRequires(items: set<string>) | AddsGenerator

  function Lookup(tree: Tree, path: Path): Option<string> {
    if path in tree then Some(tree[path]) else None
  }

  function Field(p: Parsed, i: nat): seq<string> {
    if i < |p.fields| then p.fields[i] else []
  }

  /** Nothing about the spec moved but what it needs to build, and that only shrank. */
  predicate SameBuild(pinned: Tree, target: Tree, parse: string -> Parsed) {
    && SingleSpec(pinned).Some? && SingleSpec(target).Some?
    && SingleSpec(pinned).value.path == SingleSpec(target).value.path
    && Lookup(pinned, SOURCES) == Lookup(target, SOURCES)
    && SameFields(parse(SpecText(pinned)), parse(SpecText(target)))
  }

  predicate SameFields(before: Parsed, after: Parsed) {
    && (forall i: nat | i < 4 :: Field(before, i) == Field(after, i))
    && after.buildRequires <= before.buildRequires
    && (after.generates ==> before.generates)
  }

  predicate Safe(facts: Facts, local: Tree, pinned: Tree, target: Tree, parse: string -> Parsed) {
    && facts.plainImport && facts.fastForward
    && facts.lock.Some? && facts.lock.value <= PLAIN_LOCK_KEYS
    && Diverges(local, pinned) == NONE
    && SameBuild(pinned, target, parse)
  }

  /** One line of a list of reasons. */
  function If(c: bool, reason: Reason): seq<Reason> {
    if c then [reason] else []
  }

  /** What is held against the recipe and its lock. */
  function RecipeReasons(facts: Facts, how: Divergence): seq<Reason> {
    If(!facts.plainImport, NotPlainImport) + If(!facts.fastForward, NotFastForward)
    + (if facts.lock.None? then [NoLock]
       else If(facts.lock.value - PLAIN_LOCK_KEYS != {}, LockDecides(facts.lock.value - PLAIN_LOCK_KEYS)))
    + If(how != NONE, RecipeDiverges(how))
  }

  function FieldReasons(before: Parsed, after: Parsed, i: nat): seq<Reason> {
    if i == 0 then []
    else FieldReasons(before, after, i - 1) + If(Field(before, i - 1) != Field(after, i - 1), FieldChanged(i - 1))
  }

  /** What is held against the move from one spec to the other. */
  function MoveReasons(pinned: Tree, target: Tree, before: Parsed, after: Parsed): seq<Reason>
    requires SingleSpec(pinned).Some? && SingleSpec(target).Some?
  {
    If(SingleSpec(pinned).value.path != SingleSpec(target).value.path, SpecRenamed)
    + If(Lookup(pinned, SOURCES) != Lookup(target, SOURCES), SourcesChanged)
    + FieldReasons(before, after, 4)
    + If(after.buildRequires - before.buildRequires != {}, AddsRequires(after.buildRequires - before.buildRequires))
    + If(after.generates && !before.generates, AddsGenerator)
  }

  /** Every reason, in order; without one spec on each side nothing more is compared. */
  function Reasons(facts: Facts, local: Tree, pinned: Tree, target: Tree, parse: string -> Parsed): seq<Reason> {
    RecipeReasons(facts, Diverges(local, pinned))
    + if SingleSpec(pinned).None? || SingleSpec(target).None? then [NotOneSpec]
      else MoveReasons(pinned, target, parse(SingleSpec(pinned).value.text), parse(SingleSpec(target).value.text))
  }

  /** `classify`: why a re-import is unsafe. */
  method Classify(facts: Facts, local: Tree, pinned: Tree, target: Tree, parse: string -> Parsed)
    returns (reasons: seq<Reason>)
    ensures reasons == Reasons(facts, local, pinned, target, parse)
    ensures reasons == [] <==> Safe(facts, local, pinned, target, parse)
  {
    NoReasonIsSafe(facts, local, pinned, target, parse);
    hide Diverges, SingleSpec, Lookup, Safe, RecipeReasons, MoveReasons;
    reasons := ClassifyRecipe(facts, Diverges(local, pinned));
    var older, newer := SingleSpec(pinned), SingleSpec(target);
    if older.None? || newer.None? {
      reasons := reasons + [NotOneSpec];
      return;
    }
    var more := CompareSpecs(pinned, target, parse(older.value.text), parse(newer.value.text));
    reasons := reasons + more;
  }

  /** The checks of `classify` on the recipe and its lock. */
  method ClassifyRecipe(facts: Facts, how: Divergence) returns (reasons: seq<Reason>)
    ensures reasons == RecipeReasons(facts, how)
  {
    hide If;
    reasons := [];
    Appended(reasons, !facts.plainImport, NotPlainImport);
    if !facts.plainImport { reasons := reasons + [NotPlainImport]; }
    Appended(reasons, !facts.fastForward, NotFastForward);
    if !facts.fastForward { reasons := reasons + [NotFastForward]; }
    if facts.lock.None? {
      reasons := reasons + [NoLock];
    } else {
      var decisions := facts.lock.value - PLAIN_LOCK_KEYS;
      Appended(reasons, decisions != {}, LockDecides(decisions));
      if decisions != {} { reasons := reasons + [LockDecides(decisions)]; }
    }
    Appended(reasons, how != NONE, RecipeDiverges(how));
    if how != NONE { reasons := reasons + [RecipeDiverges(how)]; }
  }

  lemma NoFields(before: Parsed, after: Parsed)
    ensures FieldReasons(before, after, 0) == []
  {
  }

  lemma OneMoreField(sofar: seq<Reason>, before: Parsed, after: Parsed, i: nat)
    ensures sofar + FieldReasons(before, after, i + 1)
         == sofar + FieldReasons(before, after, i) + If(Field(before, i) != Field(after, i), FieldChanged(i))
  {
    hide Field;
    var done, more := FieldReasons(before, after, i), If(Field(before, i) != Field(after, i), FieldChanged(i));
    assert sofar + (done + more) == (sofar + done) + more;
  }

  /** The loop over the fields. */
  method CompareFields(sofar: seq<Reason>, before: Parsed, after: Parsed) returns (reasons: seq<Reason>)
    ensures reasons == sofar + FieldReasons(before, after, 4)
  {
    hide Field, FieldReasons;
    NoFields(before, after);
    reasons := sofar;
    assert sofar + [] == sofar;
    for i := 0 to 4
      invariant reasons == sofar + FieldReasons(before, after, i)
    {
      OneMoreField(sofar, before, after, i);
      assert reasons + [] == reasons;
      if Field(before, i) != Field(after, i) { reasons := reasons + [FieldChanged(i)]; }
    }
  }

  /** The rest of `classify`, once each side has its one spec. */
  method CompareSpecs(pinned: Tree, target: Tree, before: Parsed, after: Parsed) returns (reasons: seq<Reason>)
    requires SingleSpec(pinned).Some? && SingleSpec(target).Some?
    ensures reasons == MoveReasons(pinned, target, before, after)
  {
    hide SingleSpec, Lookup, FieldReasons, If;
    reasons := [];
    var renamed := SingleSpec(pinned).value.path != SingleSpec(target).value.path;
    Appended(reasons, renamed, SpecRenamed);
    if renamed { reasons := reasons + [SpecRenamed]; }
    assert reasons == If(renamed, SpecRenamed);
    Appended(reasons, Lookup(pinned, SOURCES) != Lookup(target, SOURCES), SourcesChanged);
    if Lookup(pinned, SOURCES) != Lookup(target, SOURCES) { reasons := reasons + [SourcesChanged]; }
    reasons := CompareFields(reasons, before, after);
    var added := after.buildRequires - before.buildRequires;
    Appended(reasons, added != {}, AddsRequires(added));
    if added != {} { reasons := reasons + [AddsRequires(added)]; }
    Appended(reasons, after.generates && !before.generates, AddsGenerator);
    if after.generates && !before.generates { reasons := reasons + [AddsGenerator]; }
  }

  lemma Appended(reasons: seq<Reason>, c: bool, reason: Reason)
    ensures (if c then reasons + [reason] else reasons) == reasons + If(c, reason)
    ensures [] + If(c, reason) == If(c, reason)
  {
  }

  lemma NoneOutside(a: set<string>, b: set<string>)
    ensures a - b == {} <==> a <= b
  {
    if a - b == {} {
      forall x | x in a ensures x in b { assert x !in a - b; }
    }
  }

  lemma {:induction false} NoFieldReasons(before: Parsed, after: Parsed, i: nat)
    ensures FieldReasons(before, after, i) == [] <==> forall j: nat | j < i :: Field(before, j) == Field(after, j)
  {
    if i > 0 { NoFieldReasons(before, after, i - 1); }
  }

  lemma NoReasonIsSafe(facts: Facts, local: Tree, pinned: Tree, target: Tree, parse: string -> Parsed)
    ensures Reasons(facts, local, pinned, target, parse) == [] <==> Safe(facts, local, pinned, target, parse)
  {
    hide Diverges, SingleSpec, Lookup, Field;
    if facts.lock.Some? { NoneOutside(facts.lock.value, PLAIN_LOCK_KEYS); }
    if SingleSpec(pinned).Some? && SingleSpec(target).Some? {
      var before, after := parse(SpecText(pinned)), parse(SpecText(target));
      NoneOutside(after.buildRequires, before.buildRequires);
      NoFieldReasons(before, after, 4);
    }
  }

  /** The lock decides nothing a person would have to think about. */
  ghost predicate PlainLock(lock: Option<set<string>>) {
    lock.Some? && forall k | k in lock.value ::
      || k == "name" || k == "version" || k == "url" || k == "filename" || k == "sha512" || k == "sha256_url"
      || k == "fallback_urls" || k == "feed" || k == "stage"
  }

  /** One spec on each side, of one name, and nothing that matters to the build but fewer requirements. */
  ghost predicate SpecsMove(pinned: Tree, target: Tree, parse: string -> Parsed) {
    exists older: Spec, newer: Spec ::
      && SingleSpec(pinned) == Some(older) && SingleSpec(target) == Some(newer) && older.path == newer.path
      && (forall i: nat | i < 4 :: Field(parse(older.text), i) == Field(parse(newer.text), i))
      && parse(newer.text).buildRequires <= parse(older.text).buildRequires
      && (parse(newer.text).generates ==> parse(older.text).generates)
  }

  /** When `classify` gives no reason, on the trees. */
  lemma SafeOnTrees(facts: Facts, local: Tree, pinned: Tree, target: Tree, parse: string -> Parsed)
    ensures Reasons(facts, local, pinned, target, parse) == [] <==>
      && facts.plainImport && facts.fastForward && PlainLock(facts.lock)
      && Diverges(local, pinned) == NONE
      && SpecsMove(pinned, target, parse)
      && (if "sources" in pinned then "sources" in target && pinned["sources"] == target["sources"]
          else "sources" !in target)
  {
    NoReasonIsSafe(facts, local, pinned, target, parse);
    LockIsPlain(facts.lock);
    hide Diverges, SingleSpec, Field, Reasons, PlainLock;
    assert Lookup(pinned, SOURCES) == Lookup(target, SOURCES) <==>
      if "sources" in pinned then "sources" in target && pinned["sources"] == target["sources"]
      else "sources" !in target;
    if SameBuild(pinned, target, parse) {
      var older, newer := SingleSpec(pinned).value, SingleSpec(target).value;
      assert SingleSpec(pinned) == Some(older) && SingleSpec(target) == Some(newer);
    }
  }

  lemma LockIsPlain(lock: Option<set<string>>)
    ensures lock.Some? && lock.value <= PLAIN_LOCK_KEYS <==> PlainLock(lock)
  {
  }

  // ------------------------------------------------------------------------- the import

  function Reimported(local: Tree, target: Tree, record: string): Tree {
    target[FACTORY_FILE := record] - OmittedInert(local, target)
  }

  /** A recipe's directory. */
  class Recipe {
    var files: Tree

    constructor (tree: Tree)
      ensures files == tree
    {
      files := tree;
    }

    /** `import_snapshot` with `replace`: the target's files and the provenance record, and nothing else. */
    method ImportSnapshot(target: Tree, record: string)
      modifies this
      ensures files == target[FACTORY_FILE := record]
    {
      files := map[];
      files := target;
      files := files[FACTORY_FILE := record];
    }

    /** The apply step: import, then unlink the metadata the recipe already lacked. */
    method Reimport(target: Tree, record: string)
      modifies this
      ensures files == Reimported(old(files), target, record)
    {
      var local := files;
      ImportSnapshot(target, record);
      ghost var snapshot := files;
      var left := OmittedInert(local, target);
      while left != {}
        invariant left <= OmittedInert(local, target)
        invariant files == snapshot - (OmittedInert(local, target) - left)
      {
        var path :| path in left;
        files := files - {path};
        left := left - {path};
      }
    }
  }

  lemma MetadataIsNoSpec(path: Path)
    requires Metadata(path)
    ensures !IsSpec(path) && path != FACTORY_FILE
  {
    if path in INERT_FILES {
      assert path[|path| - 1] != 'c';
    } else {
      assert path[4] == '/' || path[5] == '/';
    }
  }

  lemma SameSpecs(a: Tree, b: Tree)
    requires Specs(a) == Specs(b) && forall path | path in Specs(a) :: a[path] == b[path]
    ensures SingleSpec(a) == SingleSpec(b) && SpecText(a) == SpecText(b)
  {
  }

  lemma ReimportKeepsSpec(local: Tree, target: Tree, record: string)
    ensures SingleSpec(Reimported(local, target, record)) == SingleSpec(target)
    ensures SpecText(Reimported(local, target, record)) == SpecText(target)
  {
    var result := Reimported(local, target, record);
    forall path ensures path in Specs(result) <==> path in Specs(target) {
      if Metadata(path) { MetadataIsNoSpec(path); }
      assert !IsSpec(FACTORY_FILE) by { assert FACTORY_FILE[|FACTORY_FILE| - 1] == 'n'; }
    }
    SameSpecs(result, target);
  }

  /** The build sees the target, and the provenance record; it sees the target alone only if that carried the record. */
  lemma ReimportKeepsBuild(local: Tree, target: Tree, record: string)
    ensures BuildInputs(Reimported(local, target, record)) == BuildInputs(target)[FACTORY_FILE := record]
    ensures BuildInputs(Reimported(local, target, record)) == BuildInputs(target) <==>
        Lookup(target, FACTORY_FILE) == Some(record)
  {
    var result := Reimported(local, target, record);
    ReimportKeepsSpec(local, target, record);
    assert !Metadata(FACTORY_FILE) by {
      if Metadata(FACTORY_FILE) { MetadataIsNoSpec(FACTORY_FILE); }
    }
    var seen := BuildInputs(result);
    assert seen == BuildInputs(target)[FACTORY_FILE := record];
    assert FACTORY_FILE in seen && seen[FACTORY_FILE] == record;
  }

  /** The recipe matches its new pin exactly when the pin does not itself carry the factory's file. */
  lemma ReimportMatchesPin(local: Tree, target: Tree, record: string)
    ensures Diverges(Reimported(local, target, record), target) == NONE <==> FACTORY_FILE !in target
    ensures Diverges(Reimported(local, target, record), target)
         == Divergence({}, {}, if FACTORY_FILE in target then {FACTORY_FILE} else {})
  {
    var result := Reimported(local, target, record);
    ReimportKeepsSpec(local, target, record);
    assert !Metadata(FACTORY_FILE) by {
      if Metadata(FACTORY_FILE) { MetadataIsNoSpec(FACTORY_FILE); }
    }
    var ours := result - {FACTORY_FILE};
    assert OmittedInert(ours, target) == OmittedInert(local, target);
  }

  /** Metadata a recipe lacks stays absent; every other file of the target is there. */
  lemma ReimportKeepsShape(local: Tree, target: Tree, record: string, path: Path)
    requires path != FACTORY_FILE
    ensures path in Reimported(local, target, record) <==>
              path in target && (path in local || !Inert(path, SpecText(target)))
    ensures path in Reimported(local, target, record) ==> Reimported(local, target, record)[path] == target[path]
  {
  }

  // ------------------------------------------------------------------------------- runs

  /** A recipe and the commit it is pinned to. */
  datatype State = State(local: Tree, pinned: Tree)

  /** One day: Koji's build, whether it is on the branch and not behind, and what `classify` is told. */
  datatype Day = Day(target: Tree, offered: bool, facts: Facts, record: string)

  function Next(s: State, day: Day, parse: string -> Parsed): State {
    if day.offered && BuildInputs(s.pinned) != BuildInputs(day.target)
       && Safe(day.facts, s.local, s.pinned, day.target, parse)
    then State(Reimported(s.local, day.target, day.record), day.target)
    else s
  }

  /** A day moves the recipe exactly when a build is offered, of other build inputs, and nothing is against it. */
  lemma OfferedIsTaken(s: State, day: Day, parse: string -> Parsed)
    ensures if day.offered && BuildInputs(s.pinned) != BuildInputs(day.target)
               && Reasons(day.facts, s.local, s.pinned, day.target, parse) == []
      then Next(s, day, parse) == State(Reimported(s.local, day.target, day.record), day.target)
      else Next(s, day, parse) == s
  {
    NoReasonIsSafe(day.facts, s.local, s.pinned, day.target, parse);
    hide Safe, Reasons, BuildInputs, Reimported;
  }

  function After(s: State, days: seq<Day>, parse: string -> Parsed): State {
    if days == [] then s else Next(After(s, days[..|days| - 1], parse), days[|days| - 1], parse)
  }

  /** What no automatic re-import changes between two commits. */
  predicate Kept(first: Tree, last: Tree, parse: string -> Parsed) {
    first == last || SameBuild(first, last, parse)
  }

  lemma SameBuildTransitive(a: Tree, b: Tree, c: Tree, parse: string -> Parsed)
    requires Kept(a, b, parse) && SameBuild(b, c, parse)
    ensures SameBuild(a, c, parse)
  {
    if a != b {
      var x, y, z := parse(SpecText(a)), parse(SpecText(b)), parse(SpecText(c));
      assert forall i: nat | i < 4 :: Field(x, i) == Field(y, i) && Field(y, i) == Field(z, i);
    }
  }

  /** The recipe is its pin, as the build sees it and up to metadata it never had. */
  predicate Faithful(s: State) {
    Diverges(s.local, s.pinned) == NONE && SpecText(s.local) == SpecText(s.pinned)
    && BuildInputs(s.local) - {FACTORY_FILE} == BuildInputs(s.pinned) - {FACTORY_FILE}
  }

  lemma MatchingIsFaithful(local: Tree, pinned: Tree)
    requires Diverges(local, pinned) == NONE && FACTORY_FILE !in pinned
    ensures Faithful(State(local, pinned))
  {
    var ours := local - {FACTORY_FILE};
    var theirs := pinned - OmittedInert(ours, pinned);
    assert ours == theirs by {
      assert ours.Keys == theirs.Keys;
      assert forall path | path in ours :: path !in Diverges(local, pinned).edited;
    }
    forall path ensures path in Specs(local) <==> path in Specs(pinned) {
      if Metadata(path) { MetadataIsNoSpec(path); }
      assert !IsSpec(FACTORY_FILE) by { assert FACTORY_FILE[|FACTORY_FILE| - 1] == 'n'; }
      assert path in ours <==> path in local && path != FACTORY_FILE;
    }
    forall path | path in Specs(local) ensures local[path] == pinned[path] {
      if Metadata(path) { MetadataIsNoSpec(path); }
      assert path != FACTORY_FILE by { assert FACTORY_FILE[|FACTORY_FILE| - 1] == 'n'; }
      assert ours[path] == theirs[path];
    }
    SameSpecs(local, pinned);
    assert BuildInputs(local) - {FACTORY_FILE} == BuildInputs(pinned) - {FACTORY_FILE} by {
      forall path | path != FACTORY_FILE && !Inert(path, SpecText(pinned))
        ensures Lookup(local, path) == Lookup(pinned, path)
      {
        assert path in ours <==> path in theirs;
      }
    }
  }

  /**
   Whatever Koji builds and whenever: a recipe that matched its pin matches every later pin, the source lock
   still describes it, its name, epoch, version and release never move, and what it builds against only shrinks.
   */
  lemma {:induction false} RunsStayFaithful(s: State, days: seq<Day>, parse: string -> Parsed)
    requires Faithful(s) && forall day | day in days :: FACTORY_FILE !in day.target
    ensures Faithful(After(s, days, parse))
    ensures Kept(s.pinned, After(s, days, parse).pinned, parse)
  {
    if days != [] {
      var day := days[|days| - 1];
      var before := After(s, days[..|days| - 1], parse);
      assert forall d | d in days[..|days| - 1] :: d in days;
      RunsStayFaithful(s, days[..|days| - 1], parse);
      if After(s, days, parse) != before {
        ReimportMatchesPin(before.local, day.target, day.record);
        MatchingIsFaithful(Reimported(before.local, day.target, day.record), day.target);
        SameBuildTransitive(s.pinned, before.pinned, day.target, parse);
      }
    }
  }

  lemma RecordDiverges(local: Tree, pinned: Tree)
    requires FACTORY_FILE in pinned
    ensures FACTORY_FILE in Diverges(local, pinned).dropped
  {
    if Metadata(FACTORY_FILE) { MetadataIsNoSpec(FACTORY_FILE); }
  }

  /** A recipe pinned to a commit that carries the factory's file is never imported again. */
  lemma {:induction false} StuckPin(s: State, days: seq<Day>, parse: string -> Parsed)
    requires FACTORY_FILE in s.pinned
    ensures After(s, days, parse) == s
  {
    if days != [] {
      StuckPin(s, days[..|days| - 1], parse);
      RecordDiverges(s.local, s.pinned);
    }
  }

  /** Such a commit: a spec and the file, imported over a recipe that matched. */
  lemma StuckPinExample(record: string, other: string)
    ensures var target: Tree := map["a.spec" := "", FACTORY_FILE := other];
      Diverges(Reimported(map["a.spec" := ""], target, record), target) == Divergence({}, {}, {FACTORY_FILE})
  {
    ReimportMatchesPin(map["a.spec" := ""], map["a.spec" := "", FACTORY_FILE := other], record);
  }
}
