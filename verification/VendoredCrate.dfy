/**
 tools/generated_sources.py: `_vendored_crate_members`, one crate laid out as
 `cargo vendor --versioned-dirs` lays it out.

 `checksum` stands for the text of `.cargo-checksum.json`, a function of the
 crate's files and its digest.
 */
module VendoredCrate {
  import opened Common
  import opened Ordering

  type Bytes = string

  /** A member of the crate's tar. */
  datatype Member = Member(name: string, regular: bool, data: Bytes, executable: bool)

  datatype Entry = Directory(path: string) | File(path: string, data: Bytes, executable: bool)

  datatype Result = Members(entries: seq<Entry>) | WrongDigest | OutsideItsDirectory(name: string)

  const CHECKSUM_FILE := ".cargo-checksum.json"

  predicate Outside(m: Member, top: string) {
    m.regular && !(top + "/" <= m.name)
  }

  function Relative(m: Member, top: string): string
    requires top + "/" <= m.name
  {
    m.name[|top| + 1..]
  }

  /** A regular member other than a checksum file of the crate's own. */
  predicate Carried(m: Member, top: string) {
    m.regular && top + "/" <= m.name && Relative(m, top) != CHECKSUM_FILE
  }

  /** `contents`: the last member of a name wins. */
  function Contents(members: seq<Member>, top: string): map<string, Bytes> {
    if members == [] then map[]
    else
      var k := |members| - 1;
      var before := Contents(members[..k], top);
      if Carried(members[k], top) then before[Relative(members[k], top) := members[k].data] else before
  }

  /** `executable`: one executable member of a name is enough. */
  function Executable(members: seq<Member>, top: string): set<string> {
    set m | m in members && Carried(m, top) && m.executable :: Relative(m, top)
  }

  /** The text of a path up to each of its slashes: what joining its leading parts gives. */
  function Ancestors(path: string): set<string> {
    set i | 0 <= i < |path| && path[i] == '/' :: path[..i]
  }

  function Under(directory: string, relative: string): string {
    directory + "/" + relative
  }

  function Directories(files: set<string>, directory: string): set<string> {
    {directory} + set f, d | f in files && d in Ancestors(f) :: Under(directory, d)
  }

  function DirectoryEntries(paths: seq<string>): seq<Entry> {
    seq(|paths|, i requires 0 <= i < |paths| => Directory(paths[i]))
  }

  function FileEntries(names: seq<string>, directory: string, contents: map<string, Bytes>,
                       executable: set<string>): seq<Entry>
    requires forall n | n in names :: n in contents
  {
    seq(|names|, i requires 0 <= i < |names| =>
      assert names[i] in names; File(Under(directory, names[i]), contents[names[i]], names[i] in executable))
  }

  function Layout(contents: map<string, Bytes>, executable: set<string>, directory: string): seq<Entry> {
    DirectoryEntries(Sorted(Directories(contents.Keys, directory)))
    + FileEntries(Sorted(contents.Keys), directory, contents, executable)
  }

  /** What is laid out: the crate's files and the checksum file made for them. */
  function Final(members: seq<Member>, top: string, checksum: map<string, Bytes> -> Bytes): map<string, Bytes> {
    var contents := Contents(members, top);
    contents[CHECKSUM_FILE := checksum(contents)]
  }

  method AncestorDirectories(contents: map<string, Bytes>, directory: string) returns (directories: set<string>)
    ensures directories == Directories(contents.Keys, directory)
  {
    directories := {directory};
    var left := contents.Keys;
    while left != {}
      invariant left <= contents.Keys
      invariant directories == Directories(contents.Keys - left, directory)
    {
      var relative :| relative in left;
      left := left - {relative};
      ghost var before := directories;
      for i := 0 to |relative|
        invariant directories == before + set d | d in Ancestors(relative[..i]) :: Under(directory, d)
      {
        AncestorsGrow(relative, i);
        if relative[i] == '/' { directories := directories + {Under(directory, relative[..i])}; }
      }
      assert relative[..|relative|] == relative;
      assert contents.Keys - left == contents.Keys - (left + {relative}) + {relative};
    }
    assert contents.Keys - left == contents.Keys;
  }

  lemma AncestorsGrow(path: string, i: nat)
    requires i < |path|
    ensures Ancestors(path[..i + 1]) == Ancestors(path[..i]) + if path[i] == '/' then {path[..i]} else {}
  {
    var a, b := Ancestors(path[..i + 1]), Ancestors(path[..i]);
    forall d ensures d in a <==> d in b || (path[i] == '/' && d == path[..i]) {
      if d in a {
        var j :| 0 <= j < i + 1 && path[..i + 1][j] == '/' && d == path[..i + 1][..j];
        if j < i { assert path[..i][j] == '/' && d == path[..i][..j]; } else { assert path[..i + 1][..i] == path[..i]; }
      }
      if d in b {
        var j :| 0 <= j < i && path[..i][j] == '/' && d == path[..i][..j];
        assert path[..i + 1][j] == '/' && d == path[..i + 1][..j];
      }
      if path[i] == '/' && d == path[..i] { assert path[..i + 1][i] == '/' && d == path[..i + 1][..i]; }
    }
  }

  lemma NothingRead(top: string)
    ensures Contents([], top) == map[] && Executable([], top) == {}
  {
  }

  lemma OneMoreRead(members: seq<Member>, m: Member, top: string)
    ensures Contents(members + [m], top) ==
              if Carried(m, top) then Contents(members, top)[Relative(m, top) := m.data] else Contents(members, top)
    ensures Executable(members + [m], top) ==
              Executable(members, top) + if Carried(m, top) && m.executable then {Relative(m, top)} else {}
  {
    assert (members + [m])[..|members|] == members;
  }

  /** The loop over the tar's members; `outside` names the first one outside `top`. */
  method ReadCrate(members: seq<Member>, top: string)
    returns (outside: Option<string>, contents: map<string, Bytes>, executable: set<string>)
    ensures outside.Some? <==> exists m :: m in members && Outside(m, top)
    ensures outside.None? ==> contents == Contents(members, top) && executable == Executable(members, top)
  {
    hide Contents, Executable;
    contents, executable := map[], {};
    NothingRead(top);
    assert members[..0] == [];
    for i := 0 to |members|
      invariant forall m | m in members[..i] :: !Outside(m, top)
      invariant contents == Contents(members[..i], top)
      invariant executable == Executable(members[..i], top)
    {
      var m := members[i];
      assert members[..i + 1] == members[..i] + [m];
      OneMoreRead(members[..i], m, top);
      if m.regular {
        if !(top + "/" <= m.name) {
          assert m in members && Outside(m, top);
          return Some(m.name), contents, executable;
        }
        var relative := Relative(m, top);
        if relative != CHECKSUM_FILE {
          contents := contents[relative := m.data];
          if m.executable { executable := executable + {relative}; }
        }
      }
    }
    assert members[..|members|] == members;
    outside := None;
  }

  lemma FileEntriesNext(names: seq<string>, i: nat, directory: string, contents: map<string, Bytes>,
                        executable: set<string>)
    requires i < |names| && forall n | n in names :: n in contents
    ensures FileEntries(names[..i + 1], directory, contents, executable)
         == FileEntries(names[..i], directory, contents, executable)
            + [File(Under(directory, names[i]), contents[names[i]], names[i] in executable)]
  {
  }

  /** The two loops that yield. */
  method LayOut(contents: map<string, Bytes>, executable: set<string>, directory: string) returns (entries: seq<Entry>)
    ensures entries == Layout(contents, executable, directory)
  {
    hide Ancestors, Directories, FileEntries;
    var directories := AncestorDirectories(contents, directory);
    entries := [];
    var names := Sorted(directories);
    for i := 0 to |names|
      invariant entries == DirectoryEntries(names[..i])
    {
      entries := entries + [Directory(names[i])];
    }
    assert names[..|names|] == names;
    ghost var laid := entries;
    names := Sorted(contents.Keys);
    NoFileEntries(directory, contents, executable);
    assert names[..0] == [] && laid + [] == laid;
    for i := 0 to |names|
      invariant forall n | n in names[..i] :: n in contents
      invariant entries == laid + FileEntries(names[..i], directory, contents, executable)
    {
      FileEntriesNext(names, i, directory, contents, executable);
      var entry := File(Under(directory, names[i]), contents[names[i]], names[i] in executable);
      assert laid + (FileEntries(names[..i], directory, contents, executable) + [entry]) == entries + [entry];
      entries := entries + [entry];
    }
    assert names[..|names|] == names;
  }

  lemma NoFileEntries(directory: string, contents: map<string, Bytes>, executable: set<string>)
    ensures FileEntries([], directory, contents, executable) == []
  {
  }

  /** `_vendored_crate_members` */
  method VendoredCrateMembers(members: seq<Member>, top: string, directory: string, actual: string, expected: string,
                              checksum: map<string, Bytes> -> Bytes)
    returns (result: Result)
    ensures actual != expected ==> result == WrongDigest
    ensures actual == expected && (exists m :: m in members && Outside(m, top)) ==> result.OutsideItsDirectory?
    ensures actual == expected && !(exists m :: m in members && Outside(m, top)) ==>
              result == Members(Layout(Final(members, top, checksum), Executable(members, top), directory))
  {
    if actual != expected { return WrongDigest; }
    var outside, contents, executable := ReadCrate(members, top);
    hide Contents, Executable, Ancestors, Directories, Outside;
    if outside.Some? { return OutsideItsDirectory(outside.value); }
    contents := contents[CHECKSUM_FILE := checksum(contents)];
    var entries := LayOut(contents, executable, directory);
    result := Members(entries);
  }

  // ----------------------------------------------------------------- what is laid out

  ghost predicate Distinct(entries: seq<Entry>) {
    forall i, j | 0 <= i < j < |entries| :: entries[i].path != entries[j].path
  }

  /** No file is where another file needs a directory. */
  ghost predicate NoClash(contents: map<string, Bytes>) {
    forall f, g | f in contents && g in contents :: f !in Ancestors(g)
  }

  lemma SortedDistinct(s: set<string>, i: nat, j: nat)
    requires i < j < |Sorted(s)|
    ensures Sorted(s)[i] != Sorted(s)[j]
  {
    assert Less(Sorted(s)[i], Sorted(s)[j]);
  }

  lemma UnderInjective(directory: string, a: string, b: string)
    ensures Under(directory, a) == Under(directory, b) <==> a == b
    ensures Under(directory, a) != directory
  {
    assert Under(directory, a)[|directory| + 1..] == a && Under(directory, b)[|directory| + 1..] == b;
  }

  /** Where a directory entry comes from. */
  lemma DirectoryMeaning(contents: map<string, Bytes>, directory: string, relative: string)
    ensures Under(directory, relative) in Directories(contents.Keys, directory) <==>
        exists f :: f in contents && relative in Ancestors(f)
  {
    if Under(directory, relative) in Directories(contents.Keys, directory) {
      UnderInjective(directory, relative, relative);
      var f, d :| f in contents.Keys && d in Ancestors(f) && Under(directory, relative) == Under(directory, d);
      UnderInjective(directory, relative, d);
    }
  }

  lemma DirectoryAt(contents: map<string, Bytes>, executable: set<string>, directory: string, path: string)
    returns (i: nat)
    requires path in Directories(contents.Keys, directory)
    ensures i < |Sorted(Directories(contents.Keys, directory))| <= |Layout(contents, executable, directory)|
    ensures Layout(contents, executable, directory)[i] == Directory(path)
  {
    hide Directories;
    var dirs := Sorted(Directories(contents.Keys, directory));
    assert path in dirs;
    i :| i < |dirs| && dirs[i] == path;
  }

  lemma FileAt(contents: map<string, Bytes>, executable: set<string>, directory: string, f: string) returns (i: nat)
    requires f in contents
    ensures |Sorted(Directories(contents.Keys, directory))| <= i < |Layout(contents, executable, directory)|
    ensures Layout(contents, executable, directory)[i] == File(Under(directory, f), contents[f], f in executable)
  {
    hide Directories;
    var files := Sorted(contents.Keys);
    assert f in files;
    var j :| 0 <= j < |files| && files[j] == f;
    i := |Sorted(Directories(contents.Keys, directory))| + j;
  }

  lemma EntryAt(contents: map<string, Bytes>, executable: set<string>, directory: string, i: nat) returns (f: string)
    requires i < |Layout(contents, executable, directory)|
    ensures var e, n := Layout(contents, executable, directory)[i], |Sorted(Directories(contents.Keys, directory))|;
      if i < n then e == Directory(f) && f in Directories(contents.Keys, directory)
      else f in contents && e == File(Under(directory, f), contents[f], f in executable)
  {
    hide Directories;
    var dirs, files := Sorted(Directories(contents.Keys, directory)), Sorted(contents.Keys);
    f := if i < |dirs| then dirs[i] else files[i - |dirs|];
    assert f in if i < |dirs| then dirs else files;
  }

  lemma NoTwoEntries(contents: map<string, Bytes>, executable: set<string>, directory: string, i: nat, j: nat)
    requires NoClash(contents) && i < j < |Layout(contents, executable, directory)|
    ensures Layout(contents, executable, directory)[i].path != Layout(contents, executable, directory)[j].path
  {
    var dirs, files := Sorted(Directories(contents.Keys, directory)), Sorted(contents.Keys);
    hide Sorted, Directories, Ancestors;
    if j < |dirs| {
      SortedDistinct(Directories(contents.Keys, directory), i, j);
    } else if i >= |dirs| {
      SortedDistinct(contents.Keys, i - |dirs|, j - |dirs|);
      UnderInjective(directory, files[i - |dirs|], files[j - |dirs|]);
    } else {
      assert dirs[i] in dirs && files[j - |dirs|] in files;
      DirectoryMeaning(contents, directory, files[j - |dirs|]);
    }
  }

  /** Each path is laid out once exactly when no file is where another needs a directory. */
  lemma EachPathOnce(contents: map<string, Bytes>, executable: set<string>, directory: string)
    ensures Distinct(Layout(contents, executable, directory)) <==> NoClash(contents)
  {
    var entries := Layout(contents, executable, directory);
    if NoClash(contents) {
      forall i, j | 0 <= i < j < |entries| ensures entries[i].path != entries[j].path {
        NoTwoEntries(contents, executable, directory, i, j);
      }
    } else {
      var f, g :| f in contents && g in contents && f in Ancestors(g);
      DirectoryMeaning(contents, directory, f);
      hide Sorted, Directories, Ancestors, Layout;
      var i := DirectoryAt(contents, executable, directory, Under(directory, f));
      var j := FileAt(contents, executable, directory, f);
      assert entries[i].path == entries[j].path && i < j;
    }
  }

  /** A file `a` and a file `a/b`: the path of `a` is laid out as a directory and as a file. */
  lemma ClashExample(data: Bytes, directory: string)
    ensures !Distinct(Layout(map["a" := data, "a/b" := data], {}, directory))
  {
    var contents := map["a" := data, "a/b" := data];
    assert "a/b"[1] == '/' && "a/b"[..1] == "a";
    assert "a" in contents && "a/b" in contents && "a" in Ancestors("a/b");
    assert !NoClash(contents);
    EachPathOnce(contents, {}, directory);
  }

  /** The entries: a directory for the crate and each ancestor of a file, and each file with its bytes and mode. */
  lemma ExactlyTheTree(contents: map<string, Bytes>, executable: set<string>, directory: string, e: Entry)
    ensures e in Layout(contents, executable, directory) <==>
              match e
              case Directory(path) =>
                path == directory || exists f, d :: f in contents && d in Ancestors(f) && path == Under(directory, d)
              case File(path, data, runs) =>
                exists f :: f in contents && path == Under(directory, f) && data == contents[f]
                    && runs == (f in executable)
  {
    hide Layout, Sorted, Ancestors;
    var entries := Layout(contents, executable, directory);
    if e in entries {
      var i: nat :| i < |entries| && entries[i] == e;
      var f := EntryAt(contents, executable, directory, i);
    }
    if e.Directory? && e.path in Directories(contents.Keys, directory) {
      var i := DirectoryAt(contents, executable, directory, e.path);
    }
    if e.File? {
      forall f | f in contents && e == File(Under(directory, f), contents[f], f in executable) ensures e in entries {
        var j := FileAt(contents, executable, directory, f);
      }
    }
  }

  lemma {:induction false} PrefixLeq(a: string, b: string)
    requires a <= b
    ensures Leq(a, b)
  {
    if a != "" { PrefixLeq(a[1..], b[1..]); }
  }

  lemma AncestorsNest(path: string, d: string, e: string)
    requires d in Ancestors(path) && e in Ancestors(d)
    ensures e in Ancestors(path)
  {
    var i :| 0 <= i < |path| && path[i] == '/' && d == path[..i];
    var j :| 0 <= j < |d| && d[j] == '/' && e == d[..j];
    assert path[j] == '/' && e == path[..j];
  }

  lemma SortedBefore(s: set<string>, a: string, j: nat)
    requires a in s && j < |Sorted(s)| && a < Sorted(s)[j]
    ensures exists i: nat | i < j :: Sorted(s)[i] == a
  {
    var r := Sorted(s);
    assert a in r;
    var i :| 0 <= i < |r| && r[i] == a;
    PrefixLeq(a, r[j]);
    if i > j {
      assert Less(r[j], r[i]);
      LeqAntisymmetric(a, r[j]);
    }
  }

  /** Every directory a path lies in is laid out before it; the crate's own is first of all. */
  lemma ParentsFirst(contents: map<string, Bytes>, executable: set<string>, directory: string, j: nat,
                     relative: string, d: string)
    requires j < |Layout(contents, executable, directory)|
    requires Layout(contents, executable, directory)[j].path == Under(directory, relative) && d in Ancestors(relative)
    ensures exists i: nat | i < j :: Layout(contents, executable, directory)[i] == Directory(Under(directory, d))
    ensures Layout(contents, executable, directory)[0] == Directory(directory)
  {
    var entries := Layout(contents, executable, directory);
    var all := Directories(contents.Keys, directory);
    FirstDirectory(contents, directory);
    var first := DirectoryAt(contents, executable, directory, directory);
    var origin := EntryAt(contents, executable, directory, j);
    if j < |Sorted(all)| {
      DirectoryMeaning(contents, directory, relative);
      var f :| f in contents && relative in Ancestors(f);
      AncestorsNest(f, relative, d);
      DirectoryMeaning(contents, directory, d);
      AncestorIsPrefix(directory, relative, d);
      hide Ancestors, Directories;
      SortedBefore(all, Under(directory, d), j);
      var i: nat :| i < j && Sorted(all)[i] == Under(directory, d);
      assert entries[i] == Directory(Under(directory, d));
    } else {
      UnderInjective(directory, relative, origin);
      DirectoryMeaning(contents, directory, d);
      hide Ancestors, Directories, Layout;
      var i := DirectoryAt(contents, executable, directory, Under(directory, d));
    }
  }

  lemma AncestorIsPrefix(directory: string, path: string, d: string)
    requires d in Ancestors(path)
    ensures Under(directory, d) < Under(directory, path)
  {
    var i :| 0 <= i < |path| && path[i] == '/' && d == path[..i];
    assert Under(directory, path)[..|directory| + 1 + i] == Under(directory, d);
  }

  lemma FirstDirectory(contents: map<string, Bytes>, directory: string)
    ensures |Sorted(Directories(contents.Keys, directory))| > 0
    ensures Sorted(Directories(contents.Keys, directory))[0] == directory
  {
    var all := Directories(contents.Keys, directory);
    var dirs := Sorted(all);
    assert directory in dirs;
    var first := dirs[0];
    assert first in dirs;
    if first != directory {
      var d: string :| first == Under(directory, d);
      assert directory < first;
      SortedBefore(all, directory, 0);
    }
  }

  // ---------------------------------------------------------------------- reordering

  /** No two carried members of one name. */
  ghost predicate NamesDistinct(members: seq<Member>, top: string) {
    forall i, j | 0 <= i < j < |members| && Carried(members[i], top) && Carried(members[j], top) ::
        members[i].name != members[j].name
  }

  predicate Holds(contents: map<string, Bytes>, m: Member, top: string)
    requires Carried(m, top)
  {
    Relative(m, top) in contents && contents[Relative(m, top)] == m.data
  }

  lemma RelativeInjective(a: Member, b: Member, top: string)
    requires Carried(a, top) && Carried(b, top)
    ensures Relative(a, top) == Relative(b, top) ==> a.name == b.name
  {
    assert a.name == top + "/" + Relative(a, top) && b.name == top + "/" + Relative(b, top);
  }

  lemma {:induction false} ContentsMeaning(members: seq<Member>, top: string)
    requires NamesDistinct(members, top)
    ensures forall m | m in members && Carried(m, top) :: Holds(Contents(members, top), m, top)
    ensures forall f | f in Contents(members, top) ::
              exists m :: m in members && Carried(m, top) && Relative(m, top) == f
  {
    if members != [] {
      hide Sorted;
      var k := |members| - 1;
      var last, before := members[k], members[..k];
      assert members == before + [last];
      ContentsMeaning(before, top);
      hide Relative, Carried;
      forall m | m in members && Carried(m, top) ensures Holds(Contents(members, top), m, top) {
        if m in before && Carried(last, top) {
          var i :| 0 <= i < k && members[i] == m;
          RelativeInjective(m, last, top);
        }
      }
      forall f | f in Contents(members, top)
        ensures exists m :: m in members && Carried(m, top) && Relative(m, top) == f
      {
        if f in Contents(before, top) {
          var m :| m in before && Carried(m, top) && Relative(m, top) == f;
          assert m in members;
        } else {
          assert last in members;
        }
      }
    }
  }

  /** The layout of a crate with distinct names does not depend on the order of its members. */
  lemma OrderDoesNotMatter(a: seq<Member>, b: seq<Member>, top: string, directory: string,
                           checksum: map<string, Bytes> -> Bytes)
    requires NamesDistinct(a, top) && NamesDistinct(b, top)
    requires forall m :: m in a <==> m in b
    ensures Layout(Final(a, top, checksum), Executable(a, top), directory) ==
        Layout(Final(b, top, checksum), Executable(b, top), directory)
  {
    ContentsMeaning(a, top);
    ContentsMeaning(b, top);
    var x, y := Contents(a, top), Contents(b, top);
    forall f ensures f in x <==> f in y {
      if f in x { var m :| m in a && Carried(m, top) && Relative(m, top) == f; }
      if f in y { var m :| m in b && Carried(m, top) && Relative(m, top) == f; }
    }
    forall f | f in x ensures x[f] == y[f] {
      var m :| m in a && Carried(m, top) && Relative(m, top) == f;
    }
    assert x == y;
    assert Executable(a, top) == Executable(b, top);
  }

  // ----------------------------------------------------------------- on the members

  /** The member that counts for a file `relative` of the crate: the last regular one of its name. */
  ghost predicate Supplies(members: seq<Member>, top: string, i: nat, relative: string) {
    && i < |members| && members[i].regular && members[i].name == top + "/" + relative
    && relative != ".cargo-checksum.json"
    && forall j | i < j < |members| :: members[j].regular ==> members[j].name != members[i].name
  }

  ghost predicate RunsAs(members: seq<Member>, top: string, relative: string) {
    exists m :: m in members && m.regular && m.name == top + "/" + relative && m.executable
  }

  lemma CarriedAs(m: Member, top: string, relative: string)
    ensures Carried(m, top) && Relative(m, top) == relative <==>
              m.regular && m.name == top + "/" + relative && relative != ".cargo-checksum.json"
  {
    if m.name == top + "/" + relative { assert top + "/" <= m.name && m.name[|top| + 1..] == relative; }
    if top + "/" <= m.name { assert m.name == top + "/" + m.name[|top| + 1..]; }
  }

  ghost predicate SuppliesData(members: seq<Member>, top: string, i: nat, relative: string, data: Bytes) {
    Supplies(members, top, i, relative) && members[i].data == data
  }

  /** One more member: it supplies its file, in place of any before it. */
  lemma SuppliesNext(front: seq<Member>, last: Member, top: string, relative: string, data: Bytes)
    ensures var k, members := |front|, front + [last];
      && (SuppliesData(members, top, k, relative, data) <==>
            && last.regular && last.name == top + "/" + relative && relative != ".cargo-checksum.json"
            && last.data == data)
      && (forall i: nat | i < k ::
            SuppliesData(members, top, i, relative, data) <==>
              SuppliesData(front, top, i, relative, data) && !(last.regular && last.name == top + "/" + relative))
  {
    var k, members := |front|, front + [last];
    forall i: nat | i < k
      ensures SuppliesData(members, top, i, relative, data) <==>
                SuppliesData(front, top, i, relative, data) && !(last.regular && last.name == top + "/" + relative)
    {
      assert members[i] == front[i] && members[k] == last;
      assert forall j | i < j < k :: members[j] == front[j];
    }
  }

  /** A regular member is outside when its name does not go on from the crate's directory and a slash. */
  lemma OutsideIff(m: Member, top: string)
    ensures Outside(m, top) <==> m.regular && !exists relative :: m.name == top + "/" + relative
  {
    if top + "/" <= m.name { assert m.name == top + "/" + m.name[|top| + 1..]; }
  }

  /** What is read: each file's last member, with its bytes. */
  lemma {:induction false} ContentsSupplied(members: seq<Member>, top: string, relative: string, data: Bytes)
    ensures relative in Contents(members, top) && Contents(members, top)[relative] == data <==>
              exists i: nat :: SuppliesData(members, top, i, relative, data)
    decreases |members|
  {
    if members != [] {
      var k := |members| - 1;
      var front, last := members[..k], members[k];
      assert front + [last] == members;
      ContentsSupplied(front, top, relative, data);
      SuppliesNext(front, last, top, relative, data);
      CarriedAs(last, top, relative);
      if Carried(last, top) { CarriedAs(last, top, Relative(last, top)); }
      SuppliedWithin(members, top, relative, data);
      SuppliedWithin(front, top, relative, data);
      hide Relative, Carried, SuppliesData;
    }
  }

  lemma SuppliedWithin(members: seq<Member>, top: string, relative: string, data: Bytes)
    ensures forall i: nat | SuppliesData(members, top, i, relative, data) :: i < |members|
  {
  }

  /** Some member lies at `relative`, or the checksum file does. */
  ghost predicate FileOf(members: seq<Member>, top: string, relative: string) {
    relative == ".cargo-checksum.json"
    || exists m :: m in members && m.regular && m.name == top + "/" + relative
  }

  lemma FilesLaid(members: seq<Member>, top: string, checksum: map<string, Bytes> -> Bytes, relative: string)
    ensures relative in Final(members, top, checksum) <==> FileOf(members, top, relative)
  {
    if relative != ".cargo-checksum.json" {
      if relative in Contents(members, top) {
        ContentsSupplied(members, top, relative, Contents(members, top)[relative]);
        var i: nat :| SuppliesData(members, top, i, relative, Contents(members, top)[relative]);
        assert members[i] in members;
      }
      if m :| m in members && m.regular && m.name == top + "/" + relative {
        var i := LastSupplier(members, top, relative, m);
        ContentsSupplied(members, top, relative, members[i].data);
        assert SuppliesData(members, top, i, relative, members[i].data);
      }
    }
  }

  lemma {:induction false} LastSupplier(members: seq<Member>, top: string, relative: string, m: Member) returns (i: nat)
    requires m in members && m.regular && m.name == top + "/" + relative && relative != ".cargo-checksum.json"
    ensures Supplies(members, top, i, relative)
    decreases |members|
  {
    var k := |members| - 1;
    if members[k].regular && members[k].name == m.name {
      i := k;
    } else {
      assert members == members[..k] + [members[k]];
      i := LastSupplier(members[..k], top, relative, m);
      assert forall j | i < j < k :: members[j] == members[..k][j];
    }
  }

  lemma RunsLaid(members: seq<Member>, top: string, relative: string)
    ensures relative in Executable(members, top) <==>
              relative != ".cargo-checksum.json" && RunsAs(members, top, relative)
  {
    forall m ensures Carried(m, top) && Relative(m, top) == relative <==>
        m.regular && m.name == top + "/" + relative && relative != ".cargo-checksum.json"
    {
      CarriedAs(m, top, relative);
    }
    hide Relative, Carried;
    if relative in Executable(members, top) {
      var m :| m in members && Carried(m, top) && m.executable && Relative(m, top) == relative;
    }
  }

  lemma AncestorSplits(path: string, d: string)
    ensures d in Ancestors(path) <==> exists rest :: path == d + "/" + rest
  {
    if d in Ancestors(path) {
      var i :| 0 <= i < |path| && path[i] == '/' && d == path[..i];
      assert path == d + "/" + path[i + 1..];
    }
    if rest :| path == d + "/" + rest {
      assert path[|d|] == '/' && path[..|d|] == d;
    }
  }

  /**
   On the members: the directories laid out are the crate's own and those some file lies in; the files are each
   file's last member, with its bytes and the mode any member of the name asks for, and the checksum file.
   */
  lemma TreeOfMembers(members: seq<Member>, top: string, directory: string, checksum: map<string, Bytes> -> Bytes,
                      e: Entry)
    ensures e in Layout(Final(members, top, checksum), Executable(members, top), directory) <==>
      match e
      case Directory(path) =>
        path == directory
        || exists relative, d, rest ::
             FileOf(members, top, relative) && relative == d + "/" + rest && path == directory + "/" + d
      case File(path, data, runs) =>
        || (path == directory + "/" + ".cargo-checksum.json" && data == checksum(Contents(members, top)) && !runs)
        || exists i: nat, relative ::
             && SuppliesData(members, top, i, relative, data) && path == directory + "/" + relative
             && runs == RunsAs(members, top, relative)
  {
    var contents, executable := Final(members, top, checksum), Executable(members, top);
    ExactlyTheTree(contents, executable, directory, e);
    match e
    case Directory(path) => DirectoriesOfMembers(members, top, directory, checksum, path);
    case File(path, data, runs) => FilesOfMembers(members, top, directory, checksum, path, data, runs);
  }

  lemma DirectoriesOfMembers(members: seq<Member>, top: string, directory: string,
                             checksum: map<string, Bytes> -> Bytes, path: string)
    ensures var contents := Final(members, top, checksum);
      (exists f, d :: f in contents && d in Ancestors(f) && path == Under(directory, d)) <==>
        exists relative, d, rest ::
          FileOf(members, top, relative) && relative == d + "/" + rest && path == directory + "/" + d
  {
    var contents := Final(members, top, checksum);
    hide Final, FileOf, Ancestors;
    if f, d :| f in contents && d in Ancestors(f) && path == Under(directory, d) {
      FilesLaid(members, top, checksum, f);
      AncestorSplits(f, d);
      var rest :| f == d + "/" + rest;
    }
    if relative, d, rest :|
      FileOf(members, top, relative) && relative == d + "/" + rest && path == directory + "/" + d
    {
      FilesLaid(members, top, checksum, relative);
      AncestorSplits(relative, d);
      assert path == Under(directory, d);
    }
  }

  lemma FilesOfMembers(members: seq<Member>, top: string, directory: string, checksum: map<string, Bytes> -> Bytes,
                       path: string, data: Bytes, runs: bool)
    ensures var contents := Final(members, top, checksum);
      (exists f :: f in contents && path == Under(directory, f) && data == contents[f]
                   && runs == (f in Executable(members, top))) <==>
        || (path == directory + "/" + ".cargo-checksum.json" && data == checksum(Contents(members, top)) && !runs)
        || exists i: nat, relative ::
             && SuppliesData(members, top, i, relative, data) && path == directory + "/" + relative
             && runs == RunsAs(members, top, relative)
  {
    var contents := Final(members, top, checksum);
    RunsLaid(members, top, ".cargo-checksum.json");
    hide Executable, RunsAs;
    if f :| && f in contents && path == Under(directory, f) && data == contents[f]
            && runs == (f in Executable(members, top)) {
      RunsLaid(members, top, f);
      ContentsSupplied(members, top, f, data);
    }
    if i: nat, relative :| && SuppliesData(members, top, i, relative, data) && path == directory + "/" + relative
                           && runs == RunsAs(members, top, relative) {
      RunsLaid(members, top, relative);
      ContentsSupplied(members, top, relative, data);
      assert relative in contents && path == Under(directory, relative);
    }
  }
}
