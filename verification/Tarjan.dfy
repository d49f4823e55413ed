/**
 Why Tarjan's low-link test is right. The search is seen here without its
 sequences: which nodes are on the stack, which of those are still open
 (their child iterator is on the work stack), and which children each open
 node has yet to yield. Stack order is index order.
 */
module Tarjan {
  import opened Reachability

  datatype View = View(
    index: map<Name, nat>,
    low: map<Name, nat>,
    onStack: set<Name>,
    open: set<Name>,
    todo: map<Name, set<Name>>,
    emitted: set<Name>,
    counter: nat)

  function Min(a: nat, b: nat): nat {
    if a <= b then a else b
  }

  // ---------------------------------------------------------------- invariant

  /** Who is indexed and where. */
  ghost predicate Shape(a: View) {
    && a.low.Keys == a.index.Keys == a.onStack + a.emitted
    && a.onStack !! a.emitted
    && a.open <= a.onStack
    && a.todo.Keys == a.open
    && (forall n | n in a.index :: a.index[n] < a.counter)
  }

  ghost predicate Distinct(a: View)
    requires Shape(a)
  {
    forall m, n {:trigger m in a.onStack, n in a.onStack}
      | m in a.onStack && n in a.onStack && a.index[m] == a.index[n] :: m == n
  }

  /** Every child of an indexed node is indexed, or still to be yielded by that node. */
  ghost predicate Explored(g: Graph, a: View)
    requires Shape(a)
  {
    forall n, c {:trigger c in Succ(g, n)} | n in a.onStack && c in Succ(g, n) ::
      c in a.index || (n in a.open && c in a.todo[n])
  }

  /** An open node reaches everything above it on the stack. */
  ghost predicate Upward(g: Graph, a: View)
    requires Shape(a)
  {
    forall v, y {:trigger Reaches(g, v, y)}
      | v in a.open && y in a.onStack && a.index[v] <= a.index[y] :: Reaches(g, v, y)
  }

  ghost predicate ReachesOpenBelow(g: Graph, a: View, y: Name)
    requires Shape(a) && y in a.onStack
  {
    exists v :: v in a.open && a.index[v] < a.index[y] && Reaches(g, y, v)
  }

  /** A finished node still on the stack reaches an open node below it. */
  ghost predicate Downward(g: Graph, a: View)
    requires Shape(a)
  {
    forall y {:trigger ReachesOpenBelow(g, a, y)} | y in a.onStack && y !in a.open :: ReachesOpenBelow(g, a, y)
  }

  ghost predicate LowWitness(g: Graph, a: View, v: Name)
    requires Shape(a) && v in a.onStack
  {
    exists z :: z in a.onStack && a.index[z] == a.low[v] && Reaches(g, v, z)
  }

  /** `low` is attained by a stack node the open node reaches. */
  ghost predicate LowSound(g: Graph, a: View)
    requires Shape(a)
  {
    && (forall v {:trigger a.low[v]} | v in a.open :: a.low[v] <= a.index[v])
    && (forall v {:trigger LowWitness(g, a, v)} | v in a.open :: LowWitness(g, a, v))
  }

  /** `v` answers for `u`: the highest open node not above it. */
  ghost predicate Owns(a: View, v: Name, u: Name)
    requires Shape(a)
  {
    && v in a.open && u in a.onStack
    && a.index[v] <= a.index[u]
    && forall w {:trigger w in a.open} | w in a.open && a.index[w] <= a.index[u] :: a.index[w] <= a.index[v]
  }

  /** The owner's `low` is no higher than the target of any edge already looked at. */
  ghost predicate LowComplete(g: Graph, a: View)
    requires Shape(a)
  {
    forall v, u, w {:trigger Owns(a, v, u), w in Succ(g, u)} | Owns(a, v, u) && w in Succ(g, u) && w in a.onStack
        && (u in a.open ==> w !in a.todo[u]) ::
      a.low[v] <= a.index[w]
  }

  ghost predicate Inv(g: Graph, a: View) {
    && Shape(a)
    && Distinct(a)
    && Explored(g, a)
    && Upward(g, a)
    && Downward(g, a)
    && LowSound(g, a)
    && LowComplete(g, a)
    && Closed(g, a.emitted)
  }

  ghost predicate IsTop(a: View, v: Name)
    requires Shape(a)
  {
    v in a.open && forall w | w in a.open :: a.index[w] <= a.index[v]
  }

  // ------------------------------------------------------------------ discover

  /** `child` gets the next index and becomes open; its caller, if any, has yielded it. */
  ghost predicate Discover(g: Graph, a: View, caller: Name, child: Name, t: View)
    requires Shape(a)
  {
    && Shape(t)
    && t.onStack == a.onStack + {child} && t.open == a.open + {child} && t.emitted == a.emitted
    && (forall n | n in a.index :: t.index[n] == a.index[n] && t.low[n] == a.low[n])
    && t.index[child] == t.low[child] == a.counter
    && (forall n, c | n in a.open && c in a.todo[n] :: c in t.todo[n] || (n == caller && c == child))
    && (forall c | c in Succ(g, child) :: c in t.todo[child])
  }

  /** Either nothing is open, or `caller` is the topmost open node and `child` one of its children. */
  ghost predicate Calls(g: Graph, a: View, caller: Name, child: Name)
    requires Shape(a)
  {
    && child !in a.index
    && (a.open == {} || (IsTop(a, caller) && child in Succ(g, caller)))
  }

  lemma DiscoverKeeps(g: Graph, a: View, caller: Name, child: Name, t: View)
    requires Inv(g, a) && Calls(g, a, caller, child) && Discover(g, a, caller, child, t)
    ensures Inv(g, t)
  {
    hide Explored, Distinct, Upward, Downward, LowSound, LowComplete, Owns, Calls, Discover;
    DiscoverExplored(g, a, caller, child, t);
    DiscoverUpward(g, a, caller, child, t);
    DiscoverDownward(g, a, caller, child, t);
    DiscoverLowSound(g, a, caller, child, t);
    DiscoverLowComplete(g, a, caller, child, t);
  }

  lemma DiscoverExplored(g: Graph, a: View, caller: Name, child: Name, t: View)
    requires Shape(a) && Distinct(a) && Explored(g, a) && Discover(g, a, caller, child, t)
    requires Calls(g, a, caller, child)
    ensures Shape(t) && Distinct(t) && Explored(g, t) && t.emitted == a.emitted
  {
    assert Distinct(t) by { DiscoverDistinct(g, a, caller, child, t); }
    hide Distinct;
  }

  lemma DiscoverDistinct(g: Graph, a: View, caller: Name, child: Name, t: View)
    requires Shape(a) && Distinct(a) && Discover(g, a, caller, child, t) && child !in a.index
    ensures Distinct(t)
  {
    hide Succ;
  }

  lemma DiscoverUpward(g: Graph, a: View, caller: Name, child: Name, t: View)
    requires Shape(a) && Upward(g, a) && Calls(g, a, caller, child) && Discover(g, a, caller, child, t)
    ensures Upward(g, t)
  {
    ReachesSelf(g, child);
    forall v | v in a.open ensures Reaches(g, v, child) {
      ReachesThenEdge(g, v, caller, child);
    }
  }

  lemma DiscoverDownward(g: Graph, a: View, caller: Name, child: Name, t: View)
    requires Shape(a) && Downward(g, a) && Calls(g, a, caller, child) && Discover(g, a, caller, child, t)
    ensures Downward(g, t)
  {
    forall y | y in t.onStack && y !in t.open ensures ReachesOpenBelow(g, t, y) {
      assert ReachesOpenBelow(g, a, y);
      var v :| v in a.open && a.index[v] < a.index[y] && Reaches(g, y, v);
      assert v in t.open;
    }
  }

  lemma DiscoverLowSound(g: Graph, a: View, caller: Name, child: Name, t: View)
    requires Shape(a) && LowSound(g, a) && Calls(g, a, caller, child) && Discover(g, a, caller, child, t)
    ensures LowSound(g, t)
  {
    ReachesSelf(g, child);
    forall v | v in t.open ensures LowWitness(g, t, v) {
      if v == child {
        assert child in t.onStack && t.index[child] == t.low[child];
      } else {
        assert LowWitness(g, a, v);
        var z :| z in a.onStack && a.index[z] == a.low[v] && Reaches(g, v, z);
        assert z in t.onStack && t.index[z] == t.low[v];
      }
    }
  }

  lemma DiscoverLowComplete(g: Graph, a: View, caller: Name, child: Name, t: View)
    requires Shape(a) && LowSound(g, a) && LowComplete(g, a) && Calls(g, a, caller, child)
        && Discover(g, a, caller, child, t)
    ensures LowComplete(g, t)
  {
    forall v, u, w {:trigger Owns(t, v, u), w in Succ(g, u)} | Owns(t, v, u) && w in Succ(g, u) && w in t.onStack
        && (u in t.open ==> w !in t.todo[u])
      ensures t.low[v] <= t.index[w]
    {
      if u != child {
        assert v != child;
        if w == child {
          assert a.low[v] <= a.index[v];
        } else {
          OwnsUnless(a, t, child, v, u);
          assert w in Succ(g, u);
        }
      }
    }
  }

  lemma OwnsItself(a: View, v: Name, node: Name)
    requires Shape(a) && Distinct(a) && node in a.open && Owns(a, v, node)
    ensures v == node
  {
  }

  /** Closing nodes that lie above `u` does not change who owns `u`. */
  lemma OwnsBefore(a: View, t: View, v: Name, u: Name)
    requires Shape(a) && Shape(t) && Owns(t, v, u)
    requires t.open <= a.open && t.index == a.index && u in a.onStack
    requires forall x {:trigger x in a.open} | x in a.open && x !in t.open :: a.index[u] < a.index[x]
    ensures Owns(a, v, u)
  {
    forall x {:trigger x in a.open} | x in a.open && a.index[x] <= a.index[u] ensures a.index[x] <= a.index[v] {
      assert x in t.open;
    }
  }

  /** Opening a node above everything changes the owner of no other node. */
  lemma OwnsUnless(a: View, t: View, child: Name, v: Name, u: Name)
    requires Shape(a) && Shape(t) && Owns(t, v, u) && v != child && u in a.onStack
    requires t.open == a.open + {child}
    requires forall n | n in a.index :: n in t.index && t.index[n] == a.index[n]
    ensures Owns(a, v, u)
  {
    forall x | x in a.open && a.index[x] <= a.index[u] ensures a.index[x] <= a.index[v] {
      assert x in t.open;
    }
  }

  // -------------------------------------------------------------------- look

  /** The top node yields a child already indexed; `low` drops to it when it is on the stack. */
  ghost predicate Look(a: View, node: Name, child: Name, t: View)
    requires Shape(a)
  {
    && Shape(t)
    && IsTop(a, node) && child in a.index
    && t.onStack == a.onStack && t.open == a.open && t.emitted == a.emitted && t.index == a.index
    && (forall n {:trigger a.low[n]} {:trigger t.low[n]} | n in a.index && n != node :: t.low[n] == a.low[n])
    && t.low[node] == (if child in a.onStack then Min(a.low[node], a.index[child]) else a.low[node])
    && (forall n, c | n in a.open && c in a.todo[n] :: c in t.todo[n] || (n == node && c == child))
  }

  lemma LookKeeps(g: Graph, a: View, node: Name, child: Name, t: View)
    requires Inv(g, a) && Look(a, node, child, t) && child in Succ(g, node)
    ensures Inv(g, t)
  {
    assert Distinct(t);
    assert Explored(g, t);
    assert Upward(g, t);
    forall y | y in t.onStack && y !in t.open ensures ReachesOpenBelow(g, t, y) {
      assert ReachesOpenBelow(g, a, y);
    }
    LookLowSound(g, a, node, child, t);
    LookLowComplete(g, a, node, child, t);
  }

  lemma LookLowSound(g: Graph, a: View, node: Name, child: Name, t: View)
    requires Shape(a) && LowSound(g, a) && Look(a, node, child, t) && child in Succ(g, node)
    ensures LowSound(g, t)
  {
    ReachesEdge(g, node, child);
    forall v | v in t.open ensures t.low[v] <= t.index[v] && LowWitness(g, t, v) {
      assert a.low[v] <= a.index[v] && LowWitness(g, a, v);
      if t.low[v] != a.low[v] {
        assert t.index[child] == t.low[v];
      }
    }
  }

  lemma LookLowComplete(g: Graph, a: View, node: Name, child: Name, t: View)
    requires Shape(a) && Distinct(a) && LowComplete(g, a) && Look(a, node, child, t)
    ensures LowComplete(g, t)
  {
    forall v, u, w {:trigger Owns(t, v, u), w in Succ(g, u)} | Owns(t, v, u) && w in Succ(g, u) && w in t.onStack
        && (u in t.open ==> w !in t.todo[u])
      ensures t.low[v] <= t.index[w]
    {
      OwnsBefore(a, t, v, u);
      if u == node && w == child { OwnsItself(a, v, node); }
      else { assert t.low[v] <= a.low[v] <= a.index[w]; }
    }
  }

  // -------------------------------------------------------------------- fold

  /** The finished top node is no root: it stays on the stack and passes its `low` to its parent. */
  ghost predicate Fold(a: View, node: Name, parent: Name, t: View)
    requires Shape(a)
  {
    && Shape(t)
    && IsTop(a, node) && a.todo[node] == {} && a.low[node] < a.index[node]
    && t.open == a.open - {node} && IsTop(t, parent)
    && t.onStack == a.onStack && t.emitted == a.emitted && t.index == a.index
    && (forall n {:trigger a.low[n]} {:trigger t.low[n]} | n in a.index && n != parent :: t.low[n] == a.low[n])
    && t.low[parent] == Min(a.low[parent], a.low[node])
    && (forall n | n in t.open :: t.todo[n] == a.todo[n])
  }

  lemma FoldKeeps(g: Graph, a: View, node: Name, parent: Name, t: View)
    requires Inv(g, a) && Fold(a, node, parent, t)
    ensures Inv(g, t)
  {
    assert Distinct(t);
    assert Explored(g, t);
    assert Upward(g, t);
    NodeReachesLower(g, a, node);
    FoldDownward(g, a, node, parent, t);
    FoldLowSound(g, a, node, parent, t);
    FoldLowComplete(g, a, node, parent, t);
  }

  /** A finished node whose `low` is below its index reaches an open node below itself. */
  lemma NodeReachesLower(g: Graph, a: View, node: Name)
    requires Shape(a) && LowSound(g, a) && Downward(g, a) && node in a.open && a.low[node] < a.index[node]
    ensures ReachesOpenBelow(g, a, node)
  {
    assert LowWitness(g, a, node);
    var z :| z in a.onStack && a.index[z] == a.low[node] && Reaches(g, node, z);
    if z !in a.open {
      assert ReachesOpenBelow(g, a, z);
      var v :| v in a.open && a.index[v] < a.index[z] && Reaches(g, z, v);
      ReachesTransitive(g, node, z, v);
    }
  }

  lemma FoldDownward(g: Graph, a: View, node: Name, parent: Name, t: View)
    requires Shape(a) && Downward(g, a) && Fold(a, node, parent, t) && ReachesOpenBelow(g, a, node)
    ensures Downward(g, t)
  {
    var below :| below in a.open && a.index[below] < a.index[node] && Reaches(g, node, below);
    forall y | y in t.onStack && y !in t.open ensures ReachesOpenBelow(g, t, y) {
      if y == node {
        assert below in t.open;
      } else {
        assert ReachesOpenBelow(g, a, y);
        var v :| v in a.open && a.index[v] < a.index[y] && Reaches(g, y, v);
        if v == node {
          ReachesTransitive(g, y, node, below);
          assert below in t.open;
        } else {
          assert v in t.open;
        }
      }
    }
  }

  lemma FoldLowSound(g: Graph, a: View, node: Name, parent: Name, t: View)
    requires Shape(a) && LowSound(g, a) && Upward(g, a) && Fold(a, node, parent, t)
    ensures LowSound(g, t)
  {
    forall v | v in t.open ensures t.low[v] <= t.index[v] && LowWitness(g, t, v) {
      assert a.low[v] <= a.index[v] && LowWitness(g, a, v);
      if t.low[v] != a.low[v] {
        assert LowWitness(g, a, node);
        var z :| z in a.onStack && a.index[z] == a.low[node] && Reaches(g, node, z);
        assert Reaches(g, parent, node);
        ReachesTransitive(g, parent, node, z);
      }
    }
  }

  lemma FoldOwner(a: View, node: Name, parent: Name, t: View, v: Name, u: Name)
    requires Shape(a) && Distinct(a) && Fold(a, node, parent, t) && Owns(t, v, u) && a.index[node] <= a.index[u]
    ensures Owns(a, node, u) && v == parent
    ensures u in t.open ==> a.todo[u] == t.todo[u]
    ensures u !in t.open ==> u !in a.open || a.todo[u] == {}
  {
    assert parent in t.open && parent in a.open;
  }

  lemma FoldLowComplete(g: Graph, a: View, node: Name, parent: Name, t: View)
    requires Shape(a) && Distinct(a) && LowComplete(g, a) && Fold(a, node, parent, t)
    ensures LowComplete(g, t)
  {
    forall v, u, w {:trigger Owns(t, v, u), w in Succ(g, u)} | Owns(t, v, u) && w in Succ(g, u) && w in t.onStack
        && (u in t.open ==> w !in t.todo[u])
      ensures t.low[v] <= t.index[w]
    {
      if a.index[node] <= a.index[u] {
        FoldOwner(a, node, parent, t, v, u);
        assert Owns(a, node, u) && w in Succ(g, u);
      } else {
        OwnsBefore(a, t, v, u);
        assert t.low[v] <= a.low[v];
      }
    }
  }

  // -------------------------------------------------------------------- emit

  /** The stack from `node` upwards. */
  ghost function Segment(a: View, node: Name): set<Name>
    requires Shape(a) && node in a.onStack
  {
    set y | y in a.onStack && a.index[node] <= a.index[y]
  }

  /** The finished top node is a root: everything from it upwards is one component. */
  ghost predicate Emit(a: View, node: Name, t: View)
    requires Shape(a)
  {
    && Shape(t)
    && IsTop(a, node) && a.todo[node] == {} && a.low[node] == a.index[node]
    && t.open == a.open - {node}
    && t.onStack == a.onStack - Segment(a, node) && t.emitted == a.emitted + Segment(a, node)
    && t.index == a.index && t.low == a.low
    && (forall n | n in t.open :: t.todo[n] == a.todo[n])
  }

  /** No edge leaves the segment except into components already emitted. */
  lemma SegmentClosed(g: Graph, a: View, node: Name)
    requires Inv(g, a) && IsTop(a, node) && a.todo[node] == {} && a.low[node] == a.index[node]
    ensures Closed(g, Segment(a, node) + a.emitted)
  {
    forall u, w | u in Segment(a, node) + a.emitted && w in Succ(g, u)
      ensures w in Segment(a, node) + a.emitted
    {
      if u in Segment(a, node) {
        assert Owns(a, node, u);
        assert u in a.open ==> u == node;
        assert w in a.index;
        if w in a.onStack { assert a.low[node] <= a.index[w]; }
      }
    }
  }

  lemma SegmentReachesRoot(g: Graph, a: View, node: Name, y: Name)
    requires Inv(g, a) && IsTop(a, node) && a.todo[node] == {} && a.low[node] == a.index[node]
    requires y in Segment(a, node)
    ensures Mutual(g, node, y)
  {
    assert Reaches(g, node, y);
    if y in a.open {
      assert y == node;
    } else {
      assert ReachesOpenBelow(g, a, y);
      var v :| v in a.open && a.index[v] < a.index[y] && Reaches(g, y, v);
      SegmentClosed(g, a, node);
      ReachesStaysInside(g, y, v, Segment(a, node) + a.emitted);
      assert v == node;
    }
  }

  lemma SegmentIsScc(g: Graph, a: View, node: Name)
    requires Inv(g, a) && IsTop(a, node) && a.todo[node] == {} && a.low[node] == a.index[node]
    ensures IsScc(g, Segment(a, node))
  {
    var c := Segment(a, node);
    assert node in c;
    forall u, v | u in c ensures v in c <==> Mutual(g, u, v) {
      SegmentReachesRoot(g, a, node, u);
      if v in c {
        SegmentReachesRoot(g, a, node, v);
        ReachesTransitive(g, u, node, v);
        ReachesTransitive(g, v, node, u);
      }
      if Mutual(g, u, v) {
        SegmentClosed(g, a, node);
        ReachesStaysInside(g, u, v, c + a.emitted);
        if v in a.emitted { ReachesStaysInside(g, v, u, a.emitted); }
      }
    }
  }

  lemma EmitKeeps(g: Graph, a: View, node: Name, t: View)
    requires Inv(g, a) && Emit(a, node, t)
    ensures Inv(g, t)
  {
    SegmentClosed(g, a, node);
    assert Distinct(t);
    assert Explored(g, t);
    assert Upward(g, t);
    EmitDownward(g, a, node, t);
    EmitLowSound(g, a, node, t);
    EmitLowComplete(g, a, node, t);
  }

  lemma EmitDownward(g: Graph, a: View, node: Name, t: View)
    requires Shape(a) && Downward(g, a) && Emit(a, node, t)
    ensures Downward(g, t)
  {
    forall y | y in t.onStack && y !in t.open ensures ReachesOpenBelow(g, t, y) {
      assert ReachesOpenBelow(g, a, y);
      var v :| v in a.open && a.index[v] < a.index[y] && Reaches(g, y, v);
      assert v in t.open;
    }
  }

  lemma EmitLowSound(g: Graph, a: View, node: Name, t: View)
    requires Shape(a) && LowSound(g, a) && Emit(a, node, t)
    ensures LowSound(g, t)
  {
    forall v | v in t.open ensures t.low[v] <= t.index[v] && LowWitness(g, t, v) {
      assert a.low[v] <= a.index[v] && LowWitness(g, a, v);
      var z :| z in a.onStack && a.index[z] == a.low[v] && Reaches(g, v, z);
      assert z in t.onStack;
    }
  }

  lemma EmitOwner(a: View, node: Name, t: View, v: Name, u: Name)
    requires Shape(a) && Emit(a, node, t) && Owns(t, v, u)
    ensures Owns(a, v, u) && (u in a.open ==> u in t.open && t.todo[u] == a.todo[u])
  {
    OwnsBefore(a, t, v, u);
  }

  lemma EmitLowComplete(g: Graph, a: View, node: Name, t: View)
    requires Shape(a) && LowComplete(g, a) && Emit(a, node, t)
    ensures LowComplete(g, t)
  {
    forall v, u, w {:trigger Owns(t, v, u), w in Succ(g, u)} | Owns(t, v, u) && w in Succ(g, u) && w in t.onStack
        && (u in t.open ==> w !in t.todo[u])
      ensures t.low[v] <= t.index[w]
    {
      EmitOwner(a, node, t, v, u);
      assert w in Succ(g, u) && w in a.onStack;
    }
  }
}
