/**
 `components` of tools/build_graph.py: Tarjan's search with its real work
 stack of half-consumed child iterators, proved against module Tarjan.
 */
module Components {
  import opened Common
  import opened Ordering
  import opened Reachability
  import T = Tarjan

  /** One `(node, iter(children))` pair; `rest` is what the iterator still holds. */
  datatype Frame = Frame(node: Name, rest: seq<Name>)

  /** The variables `visit` closes over. */
  datatype Search = Search(
    index: map<Name, nat>,
    low: map<Name, nat>,
    stack: seq<Name>,
    onStack: set<Name>,
    result: seq<set<Name>>,
    counter: nat)

  /** The graph `components` walks: children outside `nodes` are filtered out. */
  function Induced(nodes: set<Name>, edges: Graph): Graph {
    map n | n in nodes :: Succ(edges, n) * nodes
  }

  ghost function Emitted(result: seq<set<Name>>): set<Name> {
    if result == [] then {} else Emitted(result[..|result| - 1]) + result[|result| - 1]
  }

  /** `w` belongs to one of the first `i + 1` components. */
  ghost predicate ListedBy(result: seq<set<Name>>, i: nat, w: Name) {
    exists j :: 0 <= j <= i && j < |result| && w in result[j]
  }

  /** Components, disjoint, and in an order their edges respect. */
  ghost predicate Finished(g: Graph, result: seq<set<Name>>) {
    && (forall i | 0 <= i < |result| :: IsScc(g, result[i]))
    && (forall i, j | 0 <= i < j < |result| :: result[i] !! result[j])
    && (forall i, u, w {:trigger u in result[i], w in Succ(g, u)}
          | 0 <= i < |result| && u in result[i] && w in Succ(g, u) :: ListedBy(result, i, w))
  }

  lemma {:induction false} EmittedMember(result: seq<set<Name>>, w: Name)
    ensures w in Emitted(result) <==> exists j :: 0 <= j < |result| && w in result[j]
  {
    if result != [] {
      var front := result[..|result| - 1];
      EmittedMember(front, w);
      if w in Emitted(front) {
        var j :| 0 <= j < |front| && w in front[j];
        assert w in result[j];
      }
      if j :| 0 <= j < |result| && w in result[j] {
        if j < |front| { assert w in front[j]; }
      }
    }
  }

  lemma EmittedAppend(result: seq<set<Name>>, c: set<Name>)
    ensures Emitted(result + [c]) == Emitted(result) + c
  {
    assert (result + [c])[..|result|] == result;
  }

  lemma FinishedAppend(g: Graph, result: seq<set<Name>>, c: set<Name>)
    requires Finished(g, result) && IsScc(g, c) && c !! Emitted(result) && Closed(g, c + Emitted(result))
    ensures Finished(g, result + [c])
  {
    var r := result + [c];
    forall i, j | 0 <= i < j < |r| ensures r[i] !! r[j] {
      if j == |result| {
        forall w | w in r[i] ensures w !in c { EmittedMember(result, w); assert w in result[i]; }
      }
    }
    forall i, u, w {:trigger u in r[i], w in Succ(g, u)}
      | 0 <= i < |r| && u in r[i] && w in Succ(g, u) ensures ListedBy(r, i, w)
    {
      if i < |result| {
        assert u in result[i] && ListedBy(result, i, w);
        var j :| 0 <= j <= i && j < |result| && w in result[j];
        assert w in r[j];
      } else if w in c {
        assert w in r[|result|];
      } else {
        EmittedMember(result, w);
        var j :| 0 <= j < |result| && w in result[j];
        assert w in r[j];
      }
    }
  }

  // ----------------------------------------------------- sequences and the view

  ghost predicate Ascending(index: map<Name, nat>, s: seq<Name>) {
    && (forall i | 0 <= i < |s| :: s[i] in index)
    && (forall i, j {:trigger s[i], s[j]} | 0 <= i < j < |s| :: index[s[i]] < index[s[j]])
  }

  ghost function Nodes(work: seq<Frame>): seq<Name> {
    seq(|work|, i requires 0 <= i < |work| => work[i].node)
  }

  ghost predicate NoDuplicates(s: seq<Name>) {
    forall i, j | 0 <= i < j < |s| :: s[i] != s[j]
  }

  /** The node stack, read as a set in index order. */
  ghost predicate ShowsStack(s: Search, a: T.View) {
    && a.index == s.index && a.low == s.low && a.onStack == s.onStack && a.counter == s.counter
    && a.emitted == Emitted(s.result)
    && Elements(s.stack) == s.onStack && Ascending(s.index, s.stack)
  }

  /** The frames, read as the open nodes and what each has yet to yield. */
  ghost predicate ShowsWork(path: seq<Name>, work: seq<Frame>, a: T.View) {
    && path == Nodes(work)
    && Elements(path) == a.open && Ascending(a.index, path)
    && a.todo.Keys == a.open
    && forall i | 0 <= i < |work| :: Elements(work[i].rest) == a.todo[path[i]] && NoDuplicates(work[i].rest)
  }

  /** The search's sequences and the view agree. */
  ghost predicate Shows(s: Search, work: seq<Frame>, a: T.View) {
    && ShowsStack(s, a)
    && ShowsWork(Nodes(work), work, a)
    && (s.stack != [] ==> work != [] && work[0].node == s.stack[0])
  }

  lemma ElementsAppend(s: seq<Name>, n: Name)
    ensures Elements(s + [n]) == Elements(s) + {n}
  {
    assert forall x :: x in s + [n] <==> x in s || x == n;
  }

  lemma AscendingAppend(index: map<Name, nat>, s: seq<Name>, n: Name, top: nat)
    requires Ascending(index, s) && n !in index && forall m | m in index :: index[m] < top
    ensures Ascending(index[n := top], s + [n])
  {
  }

  /** Between visits nothing is on the stack. */
  ghost predicate Idle(g: Graph, s: Search) {
    && s.stack == [] && s.onStack == {}
    && s.low.Keys == s.index.Keys == Emitted(s.result)
    && (forall n | n in s.index :: s.index[n] < s.counter)
    && Closed(g, Emitted(s.result))
    && Finished(g, s.result)
  }

  ghost function IdleView(s: Search): T.View {
    T.View(s.index, s.low, {}, {}, map[], Emitted(s.result), s.counter)
  }

  // -------------------------------------------------------------------- steps

  /** `index[n] = low[n] = counter`, and push. */
  function Enter(s: Search, n: Name): Search {
    s.(index := s.index[n := s.counter], low := s.low[n := s.counter],
       counter := s.counter + 1, stack := s.stack + [n], onStack := s.onStack + {n})
  }

  ghost function Entered(g: Graph, a: T.View, n: Name): T.View {
    T.View(a.index[n := a.counter], a.low[n := a.counter], a.onStack + {n}, a.open + {n},
           a.todo[n := Succ(g, n)], a.emitted, a.counter + 1)
  }

  lemma EnterStack(g: Graph, s: Search, a: T.View, n: Name)
    requires ShowsStack(s, a) && n !in s.index && forall m | m in s.index :: s.index[m] < s.counter
    ensures ShowsStack(Enter(s, n), Entered(g, a, n))
  {
    ElementsAppend(s.stack, n);
    AscendingAppend(s.index, s.stack, n, s.counter);
  }

  lemma EnterWork(g: Graph, work: seq<Frame>, a: T.View, n: Name)
    requires ShowsWork(Nodes(work), work, a) && n !in a.index && forall m | m in a.index :: a.index[m] < a.counter
    requires a.open <= a.index.Keys
    ensures var w := work + [Frame(n, Sorted(Succ(g, n)))]; ShowsWork(Nodes(w), w, Entered(g, a, n))
  {
    hide StrictlySorted;
    var w := work + [Frame(n, Sorted(Succ(g, n)))];
    var path := Nodes(work);
    assert Nodes(w) == path + [n];
    ElementsAppend(path, n);
    AscendingAppend(a.index, path, n, a.counter);
    assert Elements(Sorted(Succ(g, n))) == Succ(g, n);
    assert NoDuplicates(Sorted(Succ(g, n))) by { SortedHasNoDuplicates(Succ(g, n)); }
    var t := Entered(g, a, n);
    forall i {:trigger w[i]} | 0 <= i < |w|
      ensures Elements(w[i].rest) == t.todo[Nodes(w)[i]] && NoDuplicates(w[i].rest)
    {
      if i < |work| {
        assert w[i] == work[i] && Nodes(w)[i] == path[i] && path[i] in Elements(path);
      }
    }
  }

  lemma SortedHasNoDuplicates(s: set<Name>)
    ensures NoDuplicates(Sorted(s))
  {
  }

  lemma IdleInv(g: Graph, s: Search)
    requires Idle(g, s)
    ensures T.Inv(g, IdleView(s))
  {
  }

  lemma EnterShows(g: Graph, s: Search, work: seq<Frame>, a: T.View, n: Name)
    requires Shows(s, work, a) && T.Shape(a) && n !in s.index
    ensures Shows(Enter(s, n), work + [Frame(n, Sorted(Succ(g, n)))], Entered(g, a, n))
  {
    EnterStack(g, s, a, n);
    EnterWork(g, work, a, n);
  }

  lemma EnterRootInv(g: Graph, a: T.View, root: Name)
    requires T.Inv(g, a) && a.open == {} && root !in a.index
    ensures T.Inv(g, Entered(g, a, root))
  {
    hide Reaches, T.Explored, T.Upward, T.Downward, T.LowSound, T.LowComplete, T.Distinct, Closed;
    T.DiscoverKeeps(g, a, root, root, Entered(g, a, root));
  }

  lemma EnterRoot(g: Graph, s: Search, root: Name)
    requires Idle(g, s) && root !in s.index
    ensures Shows(Enter(s, root), [Frame(root, Sorted(Succ(g, root)))], Entered(g, IdleView(s), root))
    ensures T.Inv(g, Entered(g, IdleView(s), root))
  {
    IdleInv(g, s);
    EnterRootInv(g, IdleView(s), root);
    assert Nodes([]) == [];
    EnterShows(g, s, [], IdleView(s), root);
    assert [] + [Frame(root, Sorted(Succ(g, root)))] == [Frame(root, Sorted(Succ(g, root)))];
  }

  /** The top iterator yields its first child. */
  function Yield(work: seq<Frame>): seq<Frame>
    requires work != [] && work[|work| - 1].rest != []
  {
    var top := work[|work| - 1];
    work[..|work| - 1] + [Frame(top.node, top.rest[1..])]
  }

  ghost function Yielded(a: T.View, n: Name, child: Name): T.View
    requires n in a.todo
  {
    a.(todo := a.todo[n := a.todo[n] - {child}])
  }

  lemma YieldShows(s: Search, work: seq<Frame>, a: T.View)
    requires Shows(s, work, a) && work != [] && work[|work| - 1].rest != []
    ensures var top := work[|work| - 1];
            top.node in a.todo && top.rest[0] in a.todo[top.node]
            && Shows(s, Yield(work), Yielded(a, top.node, top.rest[0]))
  {
    hide ShowsStack, ShowsWork;
    var top := work[|work| - 1];
    YieldWork(Nodes(work), work, a);
    assert Nodes(Yield(work)) == Nodes(work);
    SameStack(s, a, top.node, top.rest[0]);
  }

  lemma YieldWork(path: seq<Name>, work: seq<Frame>, a: T.View)
    requires ShowsWork(path, work, a) && work != [] && work[|work| - 1].rest != []
    ensures var top := work[|work| - 1];
            top.node in a.todo && top.rest[0] in a.todo[top.node]
            && ShowsWork(path, Yield(work), Yielded(a, top.node, top.rest[0]))
  {
    var k, top, after := |work| - 1, work[|work| - 1], Yield(work);
    assert path[k] == top.node && path[k] in Elements(path);
    RestYields(top.rest);
    assert Nodes(after) == Nodes(work);
    var next := Yielded(a, top.node, top.rest[0]);
    forall i | 0 <= i < |after| ensures Elements(after[i].rest) == next.todo[path[i]] && NoDuplicates(after[i].rest) {
      if i < k {
        assert after[i] == work[i];
        assert a.index[path[i]] < a.index[path[k]];
      }
    }
  }

  lemma RestYields(rest: seq<Name>)
    requires rest != [] && NoDuplicates(rest)
    ensures rest[0] in Elements(rest) && Elements(rest[1..]) == Elements(rest) - {rest[0]} && NoDuplicates(rest[1..])
  {
    assert rest == [rest[0]] + rest[1..];
  }

  lemma SameStack(s: Search, a: T.View, n: Name, child: Name)
    requires ShowsStack(s, a) && n in a.todo
    ensures ShowsStack(s, Yielded(a, n, child))
  {
  }

  lemma TopIsTop(s: Search, work: seq<Frame>, a: T.View)
    requires Shows(s, work, a) && work != [] && T.Shape(a)
    ensures T.IsTop(a, work[|work| - 1].node)
  {
    var path := Nodes(work);
    assert path[|path| - 1] in Elements(path);
    forall w | w in a.open ensures a.index[w] <= a.index[path[|path| - 1]] {
      assert w in Elements(path);
      var i :| 0 <= i < |path| && path[i] == w;
      if i < |path| - 1 { assert a.index[path[i]] < a.index[path[|path| - 1]]; }
    }
  }

  lemma EnterChildInv(g: Graph, a: T.View, node: Name, child: Name)
    requires T.Inv(g, a) && T.IsTop(a, node) && child !in a.index && child in Succ(g, node)
    ensures T.Inv(g, Entered(g, Yielded(a, node, child), child))
  {
    var t := Entered(g, Yielded(a, node, child), child);
    EnterDiscovers(g, a, node, child);
    hide *;
    T.DiscoverKeeps(g, a, node, child, t);
  }

  lemma EnterDiscovers(g: Graph, a: T.View, node: Name, child: Name)
    requires T.Inv(g, a) && T.IsTop(a, node) && child !in a.index && child in Succ(g, node)
    ensures T.Calls(g, a, node, child)
    ensures T.Discover(g, a, node, child, Entered(g, Yielded(a, node, child), child))
  {
    hide Reaches, T.Explored, T.Upward, T.Downward, T.LowSound, T.LowComplete, T.Distinct, Closed;
  }

  /** Iterators only ever hold children of their node. */
  ghost predicate Pending(g: Graph, work: seq<Frame>) {
    forall i, c | 0 <= i < |work| && c in work[i].rest :: c in Succ(g, work[i].node)
  }

  /** The yielded child is new: it is indexed, pushed and opened. */
  lemma EnterChild(g: Graph, s: Search, work: seq<Frame>, a: T.View)
    requires Shows(s, work, a) && T.Inv(g, a) && work != [] && work[|work| - 1].rest != []
    requires Pending(g, work) && work[|work| - 1].rest[0] !in s.index
    ensures var node, child := work[|work| - 1].node, work[|work| - 1].rest[0];
            node in a.todo
            && var t := Entered(g, Yielded(a, node, child), child);
            Shows(Enter(s, child), Yield(work) + [Frame(child, Sorted(Succ(g, child)))], t) && T.Inv(g, t)
  {
    var node, child := work[|work| - 1].node, work[|work| - 1].rest[0];
    YieldShows(s, work, a);
    TopIsTop(s, work, a);
    EnterShows(g, s, Yield(work), Yielded(a, node, child), child);
    EnterChildInv(g, a, node, child);
  }

  /** `low[n] = min(low[n], bound)`. */
  function Lower(s: Search, n: Name, bound: nat): Search
    requires n in s.low
  {
    s.(low := s.low[n := T.Min(s.low[n], bound)])
  }

  ghost function Looked(a: T.View, node: Name, child: Name): T.View
    requires node in a.todo && node in a.low && child in a.index
  {
    Yielded(a.(low := a.low[node := if child in a.onStack then T.Min(a.low[node], a.index[child]) else a.low[node]]),
        node, child)
  }

  lemma LookInv(g: Graph, a: T.View, node: Name, child: Name)
    requires T.Inv(g, a) && T.IsTop(a, node) && child in a.index && child in Succ(g, node)
    ensures T.Inv(g, Looked(a, node, child))
  {
    T.LookKeeps(g, a, node, child, Looked(a, node, child));
  }

  /** The yielded child is already indexed. */
  lemma LookChild(g: Graph, s: Search, work: seq<Frame>, a: T.View)
    requires Shows(s, work, a) && T.Inv(g, a) && work != [] && work[|work| - 1].rest != []
    requires Pending(g, work) && work[|work| - 1].rest[0] in s.index
    ensures var node, child := work[|work| - 1].node, work[|work| - 1].rest[0];
            node in a.todo && node in s.low && node in a.low && child in a.index
            && Shows(if child in s.onStack then Lower(s, node, s.index[child]) else s,
                     Yield(work), Looked(a, node, child))
            && T.Inv(g, Looked(a, node, child))
  {
    hide Reaches, T.Explored, T.Upward, T.Downward, T.LowSound, T.LowComplete, T.Distinct;
    var node, child := work[|work| - 1].node, work[|work| - 1].rest[0];
    TopIsTop(s, work, a);
    YieldShows(s, work, a);
    LookInv(g, a, node, child);
    LookShows(s, work, a, node, child);
  }

  lemma LookShows(s: Search, work: seq<Frame>, a: T.View, node: Name, child: Name)
    requires work != [] && work[|work| - 1].rest != [] && node in a.todo && node in a.low && child in a.index
    requires ShowsStack(s, a) && Shows(s, Yield(work), Yielded(a, node, child))
    ensures Shows(if child in s.onStack then Lower(s, node, s.index[child]) else s, Yield(work), Looked(a, node, child))
  {
    hide Ascending, Elements, NoDuplicates, Emitted, Yield;
    if child !in s.onStack { assert a.low == a.low[node := a.low[node]]; }
  }

  // --------------------------------------------------------------- finishing

  ghost function Folded(a: T.View, node: Name, parent: Name): T.View
    requires node in a.low && parent in a.low
  {
    a.(open := a.open - {node}, todo := a.todo - {node},
       low := a.low[parent := T.Min(a.low[parent], a.low[node])])
  }

  /** Dropping the top frame closes its node. */
  lemma PopPath(index: map<Name, nat>, path: seq<Name>)
    requires path != [] && Ascending(index, path)
    ensures Elements(path[..|path| - 1]) == Elements(path) - {path[|path| - 1]}
    ensures Ascending(index, path[..|path| - 1])
  {
    var k := |path| - 1;
    assert path == path[..k] + [path[k]];
    ElementsAppend(path[..k], path[k]);
    forall i {:trigger path[i]} | 0 <= i < k ensures path[i] != path[k] {
      assert index[path[i]] < index[path[k]];
    }
  }

  lemma PopWork(work: seq<Frame>, a: T.View, t: T.View)
    requires work != [] && ShowsWork(Nodes(work), work, a)
    requires var node := work[|work| - 1].node;
             t.index == a.index && t.open == a.open - {node} && t.todo == a.todo - {node}
    ensures var rest := work[..|work| - 1]; ShowsWork(Nodes(rest), rest, t)
  {
    var k := |work| - 1;
    PopPath(a.index, Nodes(work));
    assert Nodes(work[..k]) == Nodes(work)[..k];
    forall i {:trigger work[i]} | 0 <= i < k ensures Nodes(work)[i] in t.todo {
      assert Nodes(work)[i] in Elements(Nodes(work)[..k]);
    }
  }

  /** A node that is no root has a parent frame below it. */
  lemma FoldHasParent(g: Graph, s: Search, work: seq<Frame>, a: T.View)
    requires Shows(s, work, a) && T.Shape(a) && T.LowSound(g, a) && work != []
    requires a.low[work[|work| - 1].node] != a.index[work[|work| - 1].node]
    ensures |work| > 1 && a.low[work[|work| - 1].node] < a.index[work[|work| - 1].node]
  {
    var node := work[|work| - 1].node;
    TopIsTop(s, work, a);
    assert a.low[node] <= a.index[node] && T.LowWitness(g, a, node);
    var z :| z in a.onStack && a.index[z] == a.low[node] && Reaches(g, node, z);
    assert z in Elements(s.stack);
    var i :| 0 <= i < |s.stack| && s.stack[i] == z;
    if |work| == 1 && i > 0 { assert a.index[s.stack[0]] < a.index[s.stack[i]]; }
  }

  lemma ParentIsTop(work: seq<Frame>, a: T.View, s: Search)
    requires Shows(s, work, a) && T.Shape(a) && |work| > 1
    ensures var node, parent := work[|work| - 1].node, work[|work| - 2].node;
            && parent in a.open && a.index[parent] < a.index[node]
            && forall w {:trigger w in a.open} | w in a.open && w != node :: a.index[w] <= a.index[parent]
  {
    var path := Nodes(work);
    var k := |path| - 1;
    assert path[k - 1] in Elements(path);
    assert a.index[path[k - 1]] < a.index[path[k]];
    forall w {:trigger w in a.open} | w in a.open && w != path[k] ensures a.index[w] <= a.index[path[k - 1]] {
      assert w in Elements(path);
      var i :| 0 <= i < |path| && path[i] == w;
      if i < k - 1 { assert a.index[path[i]] < a.index[path[k - 1]]; }
    }
  }

  lemma FoldInv(g: Graph, a: T.View, node: Name, parent: Name)
    requires T.Inv(g, a) && T.IsTop(a, node) && a.todo[node] == {} && a.low[node] < a.index[node]
    requires parent in a.open && parent != node
    requires forall w {:trigger w in a.open} | w in a.open && w != node :: a.index[w] <= a.index[parent]
    ensures T.Inv(g, Folded(a, node, parent))
  {
    T.FoldKeeps(g, a, node, parent, Folded(a, node, parent));
  }

  lemma FoldStep(g: Graph, s: Search, work: seq<Frame>, a: T.View)
    requires Shows(s, work, a) && T.Inv(g, a) && work != [] && work[|work| - 1].rest == []
    requires s.low[work[|work| - 1].node] != s.index[work[|work| - 1].node]
    ensures |work| > 1
    ensures var node, parent, rest := work[|work| - 1].node, work[|work| - 2].node, work[..|work| - 1];
            parent in s.low
            && Shows(Lower(s, parent, s.low[node]), rest, Folded(a, node, parent))
            && T.Inv(g, Folded(a, node, parent))
  {
    FoldHasParent(g, s, work, a);
    var node, parent, rest := work[|work| - 1].node, work[|work| - 2].node, work[..|work| - 1];
    TopIsTop(s, work, a);
    ParentIsTop(work, a, s);
    assert Nodes(work)[|work| - 1] == node;
    assert a.todo[node] == {};
    FoldInv(g, a, node, parent);
    PopWork(work, a, Folded(a, node, parent));
  }

  // --------------------------------------------------------------- emitting

  ghost function Emitting(a: T.View, node: Name): T.View
    requires T.Shape(a) && node in a.onStack
  {
    var c := T.Segment(a, node);
    a.(open := a.open - {node}, todo := a.todo - {node}, onStack := a.onStack - c, emitted := a.emitted + c)
  }

  lemma EmitInv(g: Graph, a: T.View, node: Name)
    requires T.Inv(g, a) && T.IsTop(a, node) && a.todo[node] == {} && a.low[node] == a.index[node]
    ensures T.Inv(g, Emitting(a, node))
  {
    T.EmitKeeps(g, a, node, Emitting(a, node));
  }

  /** `while True: member = stack.pop(); ...` down to and including `node`. */
  method PopComponent(s: Search, node: Name) returns (t: Search, component: set<Name>)
    requires node in s.stack && Elements(s.stack) == s.onStack && Ascending(s.index, s.stack)
    ensures component == set y | y in s.onStack && s.index[node] <= s.index[y]
    ensures t == s.(stack := t.stack, onStack := s.onStack - component)
    ensures t.stack <= s.stack && Elements(t.stack) == t.onStack
    ensures s.stack[0] == node <==> t.stack == []
  {
    var stack, onStack := s.stack, s.onStack;
    component := {};
    while true
      invariant stack <= s.stack && node in stack
      invariant onStack == Elements(stack) == s.onStack - component
      invariant component == Elements(s.stack[|stack|..])
      decreases |stack|
    {
      var k := |stack| - 1;
      var member := stack[k];
      PopMember(s, stack);
      stack := stack[..k];
      onStack := onStack - {member};
      component := component + {member};
      if member == node { break; }
      assert node in Elements(stack);
    }
    SuffixFromNode(s, |stack|);
    t := s.(stack := stack, onStack := onStack);
  }

  lemma PopMember(s: Search, stack: seq<Name>)
    requires stack != [] && stack <= s.stack && Ascending(s.index, s.stack)
    ensures var k := |stack| - 1;
            && Elements(stack[..k]) == Elements(stack) - {stack[k]}
            && Elements(s.stack[k..]) == Elements(s.stack[k + 1..]) + {stack[k]}
  {
    var k := |stack| - 1;
    AscendingPrefix(s.index, s.stack, stack);
    PopPath(s.index, stack);
    assert s.stack[k..] == [stack[k]] + s.stack[k + 1..];
  }

  /** In index order, the stack from `node` on is what carries an index at least `node`'s. */
  lemma SuffixFromNode(s: Search, k: nat)
    requires k < |s.stack| && Elements(s.stack) == s.onStack && Ascending(s.index, s.stack)
    ensures Elements(s.stack[k..]) == set y | y in s.onStack && s.index[s.stack[k]] <= s.index[y]
  {
    forall y ensures y in s.stack[k..] <==> y in s.onStack && s.index[s.stack[k]] <= s.index[y] {
      if y in s.onStack {
        assert y in Elements(s.stack);
        var i :| 0 <= i < |s.stack| && s.stack[i] == y;
        if i < k {
          assert s.index[s.stack[i]] < s.index[s.stack[k]];
        } else {
          assert s.stack[k..][i - k] == y;
          if i > k { assert s.index[s.stack[k]] < s.index[s.stack[i]]; }
        }
      }
    }
  }

  lemma EmitResult(g: Graph, a: T.View, node: Name, result: seq<set<Name>>)
    requires T.Inv(g, a) && T.IsTop(a, node) && a.todo[node] == {} && a.low[node] == a.index[node]
    requires a.emitted == Emitted(result) && Finished(g, result)
    ensures Finished(g, result + [T.Segment(a, node)])
    ensures Emitted(result + [T.Segment(a, node)]) == a.emitted + T.Segment(a, node)
  {
    EmittedAppend(result, T.Segment(a, node));
    T.SegmentIsScc(g, a, node);
    T.SegmentClosed(g, a, node);
    FinishedAppend(g, result, T.Segment(a, node));
  }

  /** What `PopComponent` left: the emitted segment is gone from the stack. */
  ghost predicate Popped(s: Search, node: Name, t: Search, c: set<Name>) {
    && node in s.index
    && c == (set y | y in s.onStack && y in s.index && s.index[node] <= s.index[y])
    && t == s.(stack := t.stack, onStack := s.onStack - c, result := s.result + [c])
    && t.stack <= s.stack && Elements(t.stack) == t.onStack
    && s.stack != [] && (s.stack[0] == node <==> t.stack == [])
  }

  lemma AscendingPrefix(index: map<Name, nat>, s: seq<Name>, t: seq<Name>)
    requires Ascending(index, s) && t <= s
    ensures Ascending(index, t)
  {
  }

  lemma EmitShows(s: Search, work: seq<Frame>, a: T.View, t: Search, c: set<Name>, b: T.View)
    requires Shows(s, work, a) && work != []
    requires Popped(s, work[|work| - 1].node, t, c)
    requires var node := work[|work| - 1].node;
             b == T.View(a.index, a.low, a.onStack - c, a.open - {node}, a.todo - {node}, Emitted(t.result), a.counter)
    ensures Shows(t, work[..|work| - 1], b)
  {
    PopWork(work, a, b);
    AscendingPrefix(s.index, s.stack, t.stack);
    if t.stack != [] {
      assert t.stack[0] == s.stack[0];
      assert |work| > 1 && work[..|work| - 1][0] == work[0];
    }
  }

  lemma EmitStep(g: Graph, s: Search, work: seq<Frame>, a: T.View, t: Search, c: set<Name>)
    requires Shows(s, work, a) && T.Inv(g, a) && Finished(g, s.result)
    requires work != [] && work[|work| - 1].rest == []
    requires s.low[work[|work| - 1].node] == s.index[work[|work| - 1].node]
    requires Popped(s, work[|work| - 1].node, t, c)
    ensures work[|work| - 1].node in a.onStack
    ensures Shows(t, work[..|work| - 1], Emitting(a, work[|work| - 1].node))
    ensures T.Inv(g, Emitting(a, work[|work| - 1].node)) && Finished(g, t.result)
  {
    hide Reaches, Finished, T.Explored, T.Upward, T.Downward, T.LowSound, T.LowComplete, T.Distinct;
    var node := work[|work| - 1].node;
    TopIsTop(s, work, a);
    assert a.todo[node] == {} by { assert Nodes(work)[|work| - 1] == node; }
    EmitInv(g, a, node);
    EmitResult(g, a, node, s.result);
    assert c == T.Segment(a, node);
    EmitShows(s, work, a, t, c, Emitting(a, node));
  }

  /** Before an emission the parent's `low` is already below the node's. */
  lemma LowerIsIdle(g: Graph, s: Search, work: seq<Frame>, a: T.View)
    requires Shows(s, work, a) && T.Shape(a) && T.LowSound(g, a) && |work| > 1
    requires s.low[work[|work| - 1].node] == s.index[work[|work| - 1].node]
    ensures work[|work| - 2].node in s.low
            && Lower(s, work[|work| - 2].node, s.low[work[|work| - 1].node]) == s
  {
    ParentIsTop(work, a, s);
    var parent := work[|work| - 2].node;
    assert a.low[parent] <= a.index[parent];
    assert s.low == s.low[parent := s.low[parent]];
  }

  lemma IdleAgain(g: Graph, s: Search, a: T.View)
    requires Shows(s, [], a) && T.Inv(g, a) && Finished(g, s.result)
    ensures Idle(g, s)
  {
    assert s.stack == [];
  }

  // ---------------------------------------------------------------- the search

  /** Everything a loop head of `visit` knows. */
  ghost predicate Running(g: Graph, s: Search, work: seq<Frame>, a: T.View) {
    && Shows(s, work, a)
    && T.Inv(g, a)
    && Pending(g, work)
    && Finished(g, s.result)
  }

  function Frames(nodes: set<Name>, edges: Graph, n: Name): Frame {
    Frame(n, Sorted(Succ(edges, n) * nodes))
  }

  lemma EnterChildRuns(nodes: set<Name>, edges: Graph, s: Search, work: seq<Frame>, a: T.View)
    requires Running(Induced(nodes, edges), s, work, a) && work != [] && work[|work| - 1].rest != []
    requires work[|work| - 1].rest[0] !in s.index
    ensures var node, child := work[|work| - 1].node, work[|work| - 1].rest[0];
            && child in nodes && node in a.todo
            && Running(Induced(nodes, edges), Enter(s, child), Yield(work) + [Frames(nodes, edges, child)],
                       Entered(Induced(nodes, edges), Yielded(a, node, child), child))
  {
    hide T.Inv, Shows, Finished, Entered, Yielded;
    var g, child := Induced(nodes, edges), work[|work| - 1].rest[0];
    assert child in Succ(g, work[|work| - 1].node);
    EnterChild(g, s, work, a);
    assert Pending(g, Yield(work) + [Frames(nodes, edges, child)]);
  }

  lemma LookChildRuns(g: Graph, s: Search, work: seq<Frame>, a: T.View)
    requires Running(g, s, work, a) && work != [] && work[|work| - 1].rest != []
    requires work[|work| - 1].rest[0] in s.index
    ensures var node, child := work[|work| - 1].node, work[|work| - 1].rest[0];
            && node in a.todo && node in s.low && node in a.low && child in a.index
            && Running(g, if child in s.onStack then Lower(s, node, s.index[child]) else s,
                       Yield(work), Looked(a, node, child))
  {
    hide T.Inv, Shows, Finished;
    LookChild(g, s, work, a);
    assert Pending(g, Yield(work));
  }

  /** `for child in children`: runs the top iterator until it is dry or opens a new frame. */
  method YieldChildren(nodes: set<Name>, edges: Graph, s0: Search, work0: seq<Frame>, ghost a0: T.View)
    returns (s: Search, work: seq<Frame>, advanced: bool, ghost a: T.View)
    requires Running(Induced(nodes, edges), s0, work0, a0) && work0 != [] && s0.index.Keys <= nodes
    ensures Running(Induced(nodes, edges), s, work, a) && s0.index.Keys <= s.index.Keys <= nodes
    ensures advanced ==> |work| == |work0| + 1 && work[|work| - 1].node !in s0.index
    ensures advanced ==> s.index == s0.index[work[|work| - 1].node := s0.counter]
    ensures !advanced ==> s.index == s0.index && |work| == |work0| && work[|work| - 1].rest == []
  {
    hide Running, Entered, Yielded, Looked, Reaches;
    ghost var g := Induced(nodes, edges);
    s, work, advanced, a := s0, work0, false, a0;
    while work[|work| - 1].rest != []
      invariant Running(g, s, work, a) && |work| == |work0| && s.index == s0.index && s.counter == s0.counter
      decreases |work[|work| - 1].rest|
    {
      var node, child := work[|work| - 1].node, work[|work| - 1].rest[0];
      if child !in s.index {
        EnterChildRuns(nodes, edges, s, work, a);
        a := Entered(g, Yielded(a, node, child), child);
        s := Enter(s, child);
        work := Yield(work) + [Frames(nodes, edges, child)];
        advanced := true;
        break;
      }
      LookChildRuns(g, s, work, a);
      if child in s.onStack {
        s := Lower(s, node, s.index[child]);
      }
      a := Looked(a, node, child);
      work := Yield(work);
    }
  }

  lemma TopFacts(g: Graph, s: Search, work: seq<Frame>, a: T.View)
    requires Running(g, s, work, a) && work != []
    ensures work[|work| - 1].node in s.low && work[|work| - 1].node in s.index && work[|work| - 1].node in s.stack
    ensures Elements(s.stack) == s.onStack && Ascending(s.index, s.stack)
    ensures |work| > 1 ==> work[|work| - 2].node in s.low
  {
    TopIsTop(s, work, a);
    assert work[|work| - 1].node in Elements(s.stack);
    if |work| > 1 { ParentIsTop(work, a, s); }
  }

  lemma FoldRuns(g: Graph, s: Search, work: seq<Frame>, a: T.View)
    requires Running(g, s, work, a) && work != [] && work[|work| - 1].rest == []
    requires work[|work| - 1].node in s.low && work[|work| - 1].node in s.index
    requires s.low[work[|work| - 1].node] != s.index[work[|work| - 1].node]
    ensures |work| > 1
    ensures var node, parent := work[|work| - 1].node, work[|work| - 2].node;
            && parent in s.low && node in a.low && parent in a.low
            && Lower(s, parent, s.low[node]).low[node] != s.index[node]
            && Running(g, Lower(s, parent, s.low[node]), work[..|work| - 1], Folded(a, node, parent))
  {
    FoldStep(g, s, work, a);
    ParentIsTop(work, a, s);
  }

  lemma EmitRuns(g: Graph, s: Search, work: seq<Frame>, a: T.View, t: Search, c: set<Name>)
    requires Running(g, s, work, a) && work != [] && work[|work| - 1].rest == []
    requires work[|work| - 1].node in s.low && Popped(s, work[|work| - 1].node, t, c)
    requires s.low[work[|work| - 1].node] == s.index[work[|work| - 1].node]
    ensures T.Shape(a) && work[|work| - 1].node in a.onStack
    ensures Running(g, t, work[..|work| - 1], Emitting(a, work[|work| - 1].node))
  {
    EmitStep(g, s, work, a, t, c);
  }

  lemma LowerIsIdleRunning(g: Graph, s: Search, work: seq<Frame>, a: T.View)
    requires Running(g, s, work, a) && |work| > 1
    requires work[|work| - 1].node in s.low && work[|work| - 1].node in s.index
    requires s.low[work[|work| - 1].node] == s.index[work[|work| - 1].node]
    ensures work[|work| - 2].node in s.low
            && Lower(s, work[|work| - 2].node, s.low[work[|work| - 1].node]) == s
  {
    LowerIsIdle(g, s, work, a);
  }

  /** The top node has no child left: pop its frame, pass `low` on, emit if it is a root. */
  method Finish(ghost g: Graph, s0: Search, work0: seq<Frame>, ghost a0: T.View)
    returns (s: Search, work: seq<Frame>, ghost a: T.View)
    requires Running(g, s0, work0, a0) && work0 != [] && work0[|work0| - 1].rest == []
    ensures Running(g, s, work, a) && s.index == s0.index && |work| == |work0| - 1
  {
    hide Running;
    TopFacts(g, s0, work0, a0);
    s, work := s0, work0[..|work0| - 1];
    var node := work0[|work0| - 1].node;
    if s0.low[node] != s0.index[node] {
      FoldRuns(g, s0, work0, a0);
      a := Folded(a0, node, work0[|work0| - 2].node);
    } else if work != [] {
      LowerIsIdleRunning(g, s0, work0, a0);
    }
    if work != [] {
      var parent := work[|work| - 1].node;
      s := Lower(s, parent, s.low[node]);
    }
    if s.low[node] == s.index[node] {
      var component;
      s, component := PopComponent(s, node);
      s := s.(result := s.result + [component]);
      EmitRuns(g, s0, work0, a0, s, component);
      a := Emitting(a0, node);
    }
  }

  method Visit(nodes: set<Name>, edges: Graph, s0: Search, root: Name) returns (s: Search)
    requires Idle(Induced(nodes, edges), s0) && root in nodes && root !in s0.index && s0.index.Keys <= nodes
    ensures Idle(Induced(nodes, edges), s) && s0.index.Keys + {root} <= s.index.Keys <= nodes
  {
    ghost var g := Induced(nodes, edges);
    EnterRoot(g, s0, root);
    ghost var a := Entered(g, IdleView(s0), root);
    var work := [Frames(nodes, edges, root)];
    s := Enter(s0, root);
    while work != []
      invariant Running(g, s, work, a) && s0.index.Keys + {root} <= s.index.Keys <= nodes
      decreases nodes - s.index.Keys, |work|
    {
      var advanced;
      s, work, advanced, a := YieldChildren(nodes, edges, s, work, a);
      if !advanced {
        s, work, a := Finish(g, s, work, a);
      }
    }
    IdleAgain(g, s, a);
  }

  /**
   The strongly connected components of the graph induced by `nodes`: every
   node in exactly one, and every edge leading to the same or an earlier one.
   */
  method Components(nodes: set<Name>, edges: Graph) returns (result: seq<set<Name>>)
    ensures forall n :: n in nodes <==> exists i :: 0 <= i < |result| && n in result[i]
    ensures forall i, j | 0 <= i < j < |result| :: result[i] !! result[j]
    ensures forall i | 0 <= i < |result| :: IsScc(Induced(nodes, edges), result[i])
    ensures forall i, u, w {:trigger u in result[i], w in Succ(edges, u)}
              | 0 <= i < |result| && u in result[i] && w in Succ(edges, u) && w in nodes :: ListedBy(result, i, w)
  {
    hide Reaches, IsScc, Closed, StrictlySorted;
    ghost var g := Induced(nodes, edges);
    var s := Search(map[], map[], [], {}, [], 0);
    IdleStart(g);
    var order := Sorted(nodes);
    for k := 0 to |order|
      invariant Idle(g, s) && s.index.Keys <= nodes
      invariant forall j | 0 <= j < k :: order[j] in s.index
    {
      if order[k] !in s.index {
        s := Visit(nodes, edges, s, order[k]);
      }
    }
    result := s.result;
    assert s.index.Keys == nodes;
    InducedResult(nodes, edges, result);
  }

  lemma IdleStart(g: Graph)
    ensures Idle(g, Search(map[], map[], [], {}, [], 0))
  {
  }

  lemma InducedResult(nodes: set<Name>, edges: Graph, result: seq<set<Name>>)
    requires Finished(Induced(nodes, edges), result) && Emitted(result) == nodes
    ensures forall n :: n in nodes <==> exists i :: 0 <= i < |result| && n in result[i]
    ensures forall i, u, w {:trigger u in result[i], w in Succ(edges, u)}
              | 0 <= i < |result| && u in result[i] && w in Succ(edges, u) && w in nodes :: ListedBy(result, i, w)
  {
    var g := Induced(nodes, edges);
    forall n ensures n in nodes <==> exists i :: 0 <= i < |result| && n in result[i] {
      EmittedMember(result, n);
    }
    forall i, u, w {:trigger u in result[i], w in Succ(edges, u)}
      | 0 <= i < |result| && u in result[i] && w in Succ(edges, u) && w in nodes ensures ListedBy(result, i, w)
    {
      assert u in nodes && w in Succ(g, u);
    }
  }
}
