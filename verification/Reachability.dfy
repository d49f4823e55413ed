/** Directed graphs over package names, paths in them, and what a path can reach. */
module Reachability {

  type Name = string

  /** A node absent from the map has no edges: `edges.get(node, set())`. */
  type Graph = map<Name, set<Name>>

  function Succ(g: Graph, n: Name): set<Name> {
    if n in g then g[n] else {}
  }

  ghost predicate IsPath(g: Graph, p: seq<Name>)
    decreases |p|
  {
    |p| > 0 && (|p| == 1 || (p[1] in Succ(g, p[0]) && IsPath(g, p[1..])))
  }

  ghost predicate Joins(g: Graph, p: seq<Name>, u: Name, v: Name) {
    IsPath(g, p) && p[0] == u && p[|p| - 1] == v
  }

  ghost predicate Reaches(g: Graph, u: Name, v: Name) {
    exists p :: Joins(g, p, u, v)
  }

  ghost predicate Closed(g: Graph, s: set<Name>) {
    forall u, v | u in s && v in Succ(g, u) :: v in s
  }

  lemma ReachesSelf(g: Graph, u: Name)
    ensures Reaches(g, u, u)
  {
    assert Joins(g, [u], u, u);
  }

  lemma ReachesEdge(g: Graph, u: Name, v: Name)
    requires v in Succ(g, u)
    ensures Reaches(g, u, v)
  {
    assert IsPath(g, [u, v][1..]);
    assert Joins(g, [u, v], u, v);
  }

  lemma {:induction false} PathConcat(g: Graph, p: seq<Name>, q: seq<Name>)
    requires IsPath(g, p) && IsPath(g, q) && p[|p| - 1] == q[0]
    ensures IsPath(g, p + q[1..])
    decreases |p|
  {
    if |p| == 1 {
      assert p + q[1..] == q;
    } else {
      PathConcat(g, p[1..], q);
      assert (p + q[1..])[1..] == p[1..] + q[1..];
    }
  }

  lemma ReachesTransitive(g: Graph, u: Name, v: Name, w: Name)
    requires Reaches(g, u, v) && Reaches(g, v, w)
    ensures Reaches(g, u, w)
  {
    var p :| Joins(g, p, u, v);
    var q :| Joins(g, q, v, w);
    PathConcat(g, p, q);
    assert Joins(g, p + q[1..], u, w);
  }

  lemma ReachesThenEdge(g: Graph, u: Name, v: Name, w: Name)
    requires Reaches(g, u, v) && w in Succ(g, v)
    ensures Reaches(g, u, w)
  {
    ReachesEdge(g, v, w);
    ReachesTransitive(g, u, v, w);
  }

  /** A path never leaves a set that is closed under the edges. */
  lemma {:induction false} PathStaysInside(g: Graph, p: seq<Name>, s: set<Name>)
    requires IsPath(g, p) && Closed(g, s) && p[0] in s
    ensures p[|p| - 1] in s
    decreases |p|
  {
    if |p| > 1 { PathStaysInside(g, p[1..], s); }
  }

  lemma ReachesStaysInside(g: Graph, u: Name, v: Name, s: set<Name>)
    requires Reaches(g, u, v) && Closed(g, s) && u in s
    ensures v in s
  {
    var p :| Joins(g, p, u, v);
    PathStaysInside(g, p, s);
  }

  ghost predicate Mutual(g: Graph, u: Name, v: Name) {
    Reaches(g, u, v) && Reaches(g, v, u)
  }

  /** A maximal set of mutually reachable nodes. */
  ghost predicate IsScc(g: Graph, c: set<Name>) {
    c != {} && forall u, v | u in c :: v in c <==> Mutual(g, u, v)
  }
}
