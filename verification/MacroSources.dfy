/**
 tools/upstream_bump.py: `version_macro_sources`, the Source lines that would
 stay on the old release if `Version:` were overwritten with a literal.
 */
module MacroSources {
  import opened Reachability

  /** A Source line and the macros it references. */
  datatype SourceLine = SourceLine(text: string, references: set<Name>)

  /** `definitions` maps a macro to those its body references; some macro the version reads reaches `m`. */
  ghost predicate Read(definitions: Graph, version: set<Name>, m: Name) {
    exists v | v in version :: Reaches(definitions, v, m)
  }

  /** Reaches a macro the version reads. */
  ghost predicate Bound(definitions: Graph, version: set<Name>, m: Name) {
    exists d :: Read(definitions, version, d) && Reaches(definitions, m, d)
  }

  ghost predicate AllRead(definitions: Graph, version: set<Name>, s: set<Name>) {
    forall m | m in s :: Read(definitions, version, m)
  }

  ghost predicate AllBound(definitions: Graph, version: set<Name>, s: set<Name>) {
    forall m | m in s :: Bound(definitions, version, m)
  }

  /** The inner loop: the names not yet bound join both. */
  method BindNames(names: set<Name>, bound: set<Name>, pending: seq<Name>)
    returns (after: set<Name>, waiting: seq<Name>)
    ensures after == bound + names
    ensures forall n :: n in waiting <==> n in pending || n in names - bound
    ensures names <= bound ==> waiting == pending
  {
    after, waiting := bound, pending;
    var left := names;
    while left != {}
      invariant left <= names
      invariant after + left == bound + names && bound <= after
      invariant forall n :: n in waiting <==> n in pending || n in after - bound
      invariant after == bound ==> waiting == pending
    {
      var name :| name in left;
      left := left - {name};
      if name !in after {
        after := after + {name};
        waiting := waiting + [name];
      }
    }
  }

  /** All that the settled members of `bound` reference is in `bound`. */
  ghost predicate Settled(definitions: Graph, bound: set<Name>, pending: seq<Name>) {
    forall m {:trigger Succ(definitions, m)} | m in bound && m !in pending :: Succ(definitions, m) <= bound
  }

  /** The macros of `Version:` and all they read, by the pending list. */
  method ReadMacros(definitions: Graph, version: set<Name>, listed: seq<Name>) returns (bound: set<Name>)
    requires forall m :: m in listed <==> m in version
    ensures forall m :: m in bound <==> Read(definitions, version, m)
  {
    hide Reaches, Read;
    bound := version;
    var pending := listed;
    VersionIsRead(definitions, version);
    while pending != []
      invariant version <= bound && AllRead(definitions, version, bound)
      invariant forall m | m in pending :: m in bound
      invariant Settled(definitions, bound, pending)
      decreases Universe(definitions, version) - bound, |pending|
    {
      var m := pending[|pending| - 1];
      var others := pending[..|pending| - 1];
      assert pending == others + [m];
      ReadSteps(definitions, version, m);
      ghost var before := bound;
      bound, pending := BindNames(Succ(definitions, m), bound, others);
      forall u {:trigger Succ(definitions, u)} | u in bound && u !in pending ensures Succ(definitions, u) <= bound {
        if u != m { assert u in before && u !in others + [m]; }
      }
      ReadInUniverse(definitions, version, bound);
    }
    ReadIsInside(definitions, version, bound);
  }

  lemma VersionIsRead(definitions: Graph, version: set<Name>)
    ensures AllRead(definitions, version, version)
  {
    forall m | m in version ensures Read(definitions, version, m) { ReachesSelf(definitions, m); }
  }

  lemma ReadIsInside(definitions: Graph, version: set<Name>, bound: set<Name>)
    requires version <= bound && AllRead(definitions, version, bound) && Settled(definitions, bound, [])
    ensures forall m :: m in bound <==> Read(definitions, version, m)
  {
    assert Closed(definitions, bound);
    hide IsPath, Closed;
    forall m | Read(definitions, version, m) ensures m in bound {
      var v :| v in version && Reaches(definitions, v, m);
      ReachesStaysInside(definitions, v, m, bound);
    }
  }

  ghost function Universe(definitions: Graph, version: set<Name>): set<Name> {
    version + set m, n | m in definitions && n in definitions[m] :: n
  }

  lemma ReadInUniverse(definitions: Graph, version: set<Name>, s: set<Name>)
    requires AllRead(definitions, version, s)
    ensures s <= Universe(definitions, version)
  {
    var u := Universe(definitions, version);
    forall m | m in s ensures m in u {
      var v :| v in version && Reaches(definitions, v, m);
      ReachesStaysInside(definitions, v, m, u);
    }
  }

  lemma ReadSteps(definitions: Graph, version: set<Name>, m: Name)
    requires Read(definitions, version, m)
    ensures AllRead(definitions, version, Succ(definitions, m))
  {
    var v :| v in version && Reaches(definitions, v, m);
    forall n | n in Succ(definitions, m) ensures Read(definitions, version, n) {
      ReachesThenEdge(definitions, v, m, n);
    }
  }

  lemma BoundStep(definitions: Graph, version: set<Name>, m: Name, n: Name)
    requires Bound(definitions, version, n) && n in Succ(definitions, m)
    ensures Bound(definitions, version, m)
  {
    var d :| Read(definitions, version, d) && Reaches(definitions, n, d);
    ReachesEdge(definitions, m, n);
    ReachesTransitive(definitions, m, n, d);
  }

  /** No definition outside `bound` references it. */
  ghost predicate Full(definitions: Graph, order: seq<Name>, bound: set<Name>) {
    forall m | m in order && Succ(definitions, m) * bound != {} :: m in bound
  }

  /** One round over the definitions, in their order. */
  method Round(definitions: Graph, order: seq<Name>, version: set<Name>, before: set<Name>)
    returns (bound: set<Name>, grown: bool)
    requires forall m | m in order :: m in definitions
    requires AllBound(definitions, version, before)
    ensures before <= bound <= before + definitions.Keys && AllBound(definitions, version, bound)
    ensures grown <==> bound != before
    ensures !grown ==> Full(definitions, order, bound)
  {
    hide Bound;
    bound, grown := before, false;
    for i := 0 to |order|
      invariant before <= bound <= before + definitions.Keys && AllBound(definitions, version, bound)
      invariant grown <==> bound != before
      invariant !grown ==> Full(definitions, order[..i], bound)
    {
      var name := order[i];
      assert name in order && order[..i + 1] == order[..i] + [name];
      if name !in bound && definitions[name] * bound != {} {
        ghost var n :| n in definitions[name] * bound;
        BoundStep(definitions, version, name, n);
        bound := bound + {name};
        grown := true;
      }
    }
    assert order[..|order|] == order;
  }

  /** Round after round, until a round adds nothing. */
  method GrowBound(definitions: Graph, order: seq<Name>, version: set<Name>, read: set<Name>) returns (bound: set<Name>)
    requires forall m :: m in order <==> m in definitions
    requires forall m :: m in read <==> Read(definitions, version, m)
    ensures forall m :: m in bound <==> Bound(definitions, version, m)
  {
    bound := read;
    forall m | m in read ensures Bound(definitions, version, m) { ReachesSelf(definitions, m); }
    hide Bound, Read, Reaches;
    var grown := true;
    while grown
      invariant read <= bound && AllBound(definitions, version, bound)
      invariant !grown ==> Full(definitions, order, bound)
      decreases definitions.Keys - bound, grown
    {
      bound, grown := Round(definitions, order, version, bound);
    }
    BoundIsInside(definitions, order, version, read, bound);
  }

  lemma BoundIsInside(definitions: Graph, order: seq<Name>, version: set<Name>, read: set<Name>, bound: set<Name>)
    requires forall m :: m in order <==> m in definitions
    requires forall m :: m in read <==> Read(definitions, version, m)
    requires read <= bound && AllBound(definitions, version, bound) && Full(definitions, order, bound)
    ensures forall m :: m in bound <==> Bound(definitions, version, m)
  {
    forall m | Bound(definitions, version, m) ensures m in bound {
      var d :| Read(definitions, version, d) && Reaches(definitions, m, d);
      var p :| Joins(definitions, p, m, d);
      ReachesBackInto(definitions, order, p, bound);
    }
  }

  /** A path that ends in a set closed under predecessors began in it. */
  lemma {:induction false} ReachesBackInto(g: Graph, order: seq<Name>, p: seq<Name>, s: set<Name>)
    requires forall m :: m in order <==> m in g
    requires IsPath(g, p) && p[|p| - 1] in s && Full(g, order, s)
    ensures p[0] in s
    decreases |p|
  {
    if |p| > 1 {
      ReachesBackInto(g, order, p[1..], s);
      assert p[1] in Succ(g, p[0]) * s;
    }
  }

  /** The lines the source returns, in order. */
  ghost predicate Referenced(lines: seq<SourceLine>, definitions: Graph, version: set<Name>, i: int)
    requires 0 <= i < |lines|
  {
    exists m | m in lines[i].references :: Bound(definitions, version, m)
  }

  ghost function ReferencedLines(lines: seq<SourceLine>, definitions: Graph, version: set<Name>): seq<string> {
    if lines == [] then []
    else
      var k := |lines| - 1;
      ReferencedLines(lines[..k], definitions, version) +
          if Referenced(lines, definitions, version, k) then [lines[k].text] else []
  }

  /**
   `version_macro_sources`, for any definitions, cyclic ones too, in any order: the Source lines that
   reference a macro which reaches one the version reads. `version` is what `Version:` references.
   */
  method VersionMacroSources(version: set<Name>, listed: seq<Name>, definitions: Graph, order: seq<Name>,
                             lines: seq<SourceLine>)
    returns (found: seq<string>)
    requires forall m :: m in listed <==> m in version
    requires forall m :: m in order <==> m in definitions
    ensures found == ReferencedLines(lines, definitions, version)
  {
    var read := ReadMacros(definitions, version, listed);
    var bound := GrowBound(definitions, order, version, read);
    found := [];
    for i := 0 to |lines|
      invariant found == ReferencedLines(lines[..i], definitions, version)
    {
      assert lines[..i + 1][..i] == lines[..i];
      if lines[i].references * bound != {} {
        ghost var m :| m in lines[i].references * bound;
        found := found + [lines[i].text];
      } else {
        forall m | m in lines[i].references ensures !Bound(definitions, version, m) {
          assert m !in lines[i].references * bound;
        }
      }
    }
    assert lines[..|lines|] == lines;
  }

  /** The same but for the macros the version reads. */
  ghost predicate SameElsewhere(before: Graph, after: Graph, version: set<Name>) {
    forall m | !Read(before, version, m) :: Succ(after, m) == Succ(before, m)
  }

  ghost predicate ReadsAny(definitions: Graph, references: set<Name>, m: Name) {
    exists r :: r in references && Reaches(definitions, r, m)
  }

  /** From a macro that reaches none the version reads, a path of one set of definitions is a path of the other. */
  lemma {:induction false} PathUnmoved(from: Graph, to: Graph, p: seq<Name>, before: Graph, version: set<Name>)
    requires IsPath(from, p) && SameElsewhere(before, to, version) && SameElsewhere(before, from, version)
    requires !Bound(before, version, p[0])
    ensures IsPath(to, p) && !Bound(before, version, p[|p| - 1])
    decreases |p|
  {
    assert !Read(before, version, p[0]) by { ReachesSelf(before, p[0]); }
    if |p| > 1 {
      assert p[1] in Succ(before, p[0]);
      assert !Bound(before, version, p[1]) by {
        if Bound(before, version, p[1]) { BoundStep(before, version, p[0], p[1]); }
      }
      PathUnmoved(from, to, p[1..], before, version);
    }
  }

  /**
   What the list is for. Let a new release define anew whatever macros the version reads: a Source line not
   listed reads the same macros as before, none of them moved. A listed line reads one of those.
   */
  lemma OnlyListedMove(lines: seq<SourceLine>, before: Graph, after: Graph, version: set<Name>, i: nat)
    requires i < |lines| && SameElsewhere(before, after, version)
    ensures Referenced(lines, before, version, i) <==>
        exists m :: ReadsAny(before, lines[i].references, m) && Read(before, version, m)
    ensures !Referenced(lines, before, version, i) ==>
              forall m :: && (ReadsAny(before, lines[i].references, m) <==> ReadsAny(after, lines[i].references, m))
                          && (ReadsAny(before, lines[i].references, m) ==> Succ(after, m) == Succ(before, m))
  {
    var references := lines[i].references;
    if m :| ReadsAny(before, references, m) && Read(before, version, m) {
      var r :| r in references && Reaches(before, r, m);
      assert Bound(before, version, r);
    }
    if !Referenced(lines, before, version, i) {
      forall m ensures (ReadsAny(before, references, m) <==> ReadsAny(after, references, m))
                       && (ReadsAny(before, references, m) ==> Succ(after, m) == Succ(before, m)) {
        forall r | r in references && Reaches(before, r, m) ensures Reaches(after, r, m) && !Read(before, version, m) {
          ReachUnmoved(before, after, r, m, before, version);
        }
        forall r | r in references && Reaches(after, r, m) ensures Reaches(before, r, m) {
          ReachUnmoved(after, before, r, m, before, version);
        }
      }
    }
  }

  lemma ReachUnmoved(from: Graph, to: Graph, r: Name, m: Name, before: Graph, version: set<Name>)
    requires Reaches(from, r, m) && SameElsewhere(before, to, version) && SameElsewhere(before, from, version)
    requires !Bound(before, version, r)
    ensures Reaches(to, r, m) && !Read(before, version, m)
  {
    var p :| Joins(from, p, r, m);
    PathUnmoved(from, to, p, before, version);
    assert Joins(to, p, r, m);
    if Read(before, version, m) { ReachesSelf(before, m); }
  }
}
