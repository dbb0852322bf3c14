/** The Python search engine: a node keeps the list of its untried actions and gains one child
    per expansion; selection stops at the first node that still has untried actions;
    backpropagation recurses up the parent references. */
module PyMcts {
  import opened Wrappers
  import opened GameState
  import opened Argmax
  import opened Arena

  /** A Python node's extra field is its list of untried actions. */
  type UNode<S, A> = Node<S, A, seq<A>>
  type UTree<S, A> = Tree<S, A, seq<A>>

  /** The UCT score of `best_child` (C = 1.4, square roots and logarithms), left abstract:
      it receives the parent's visit count, the child's visit count and the child's q. */
  type Uct = (nat, nat, int) -> real

  /** `Node.__init__`: no children, no visits, and every legal action still untried. */
  function NewNode<S, A, W>(g: Game<S, A, W>, s: S, parent: Option<nat>, action: Option<A>): (n: UNode<S, A>)
    ensures n.state == s && n.parent == parent && n.parentAction == action
    ensures n.children == [] && n.visitCount == 0 && n.results == multiset{}
    ensures n.extra == g.legalActions(s)
  {
    Node(s, parent, action, [], multiset{}, 0, g.legalActions(s))
  }

  /** `q`: wins minus losses, bounded by the visit count when that matches the result counts. */
  function Q<S, A, X>(n: Node<S, A, X>): (q: int)
    ensures n.visitCount == |n.results| ==> -(n.visitCount as int) <= q <= n.visitCount
    ensures n.results == multiset{} ==> q == 0
  {
    WinsLossesBound(n.results);
    n.results[1] as int - n.results[-1] as int
  }

  /** `is_fully_expanded`: no untried action is left. */
  predicate IsFullyExpanded<S, A>(n: UNode<S, A>)
  {
    |n.extra| == 0
  }

  /** Node `i` exists and its children are all in the arena. */
  ghost predicate ChildrenIn<S, A>(t: UTree<S, A>, i: nat)
  {
    i < |t| && forall k :: 0 <= k < |t[i].children| ==> t[i].children[k] < |t|
  }

  /** The actions that produced the children of node `i`, in child order. */
  function ChildActions<S, A>(t: UTree<S, A>, i: nat): (xs: seq<Option<A>>)
    requires ChildrenIn(t, i)
    ensures |xs| == |t[i].children|
  {
    seq(|t[i].children|, j requires 0 <= j < |t[i].children| => t[t[i].children[j]].parentAction)
  }

  /** The untried actions of node `i` are a prefix of its legal actions, and its children were
      made from the remaining legal actions, last one first: children + untried = legal actions. */
  ghost predicate Partitioned<S, A, W>(g: Game<S, A, W>, t: UTree<S, A>, i: nat)
    requires ChildrenIn(t, i)
  {
    var legal := g.legalActions(t[i].state);
    var n := |t[i].children|;
    && n <= |legal|
    && t[i].extra == legal[..|legal| - n]
    && ChildActions(t, i) == seq(n, j requires 0 <= j < n => Some(legal[|legal| - 1 - j]))
  }

  /** Every child is the successor of its parent's state under the action that produced it. */
  ghost predicate Successors<S, A, W>(g: Game<S, A, W>, t: UTree<S, A>)
  {
    && (forall c :: 0 < c < |t| ==> t[c].parentAction.Some?)
    && (forall c, p {:trigger t[c].parentAction, t[p].state} ::
          0 < c < |t| && 0 <= p < |t| && t[c].parent == Some(p) ==>
          t[c].state == g.nextState(t[p].state, t[c].parentAction.value))
  }

  /** Every node is partitioned and every child is its parent's successor. */
  ghost predicate Consistent<S, A, W>(g: Game<S, A, W>, t: UTree<S, A>)
    requires Linked(t)
  {
    (forall i :: 0 <= i < |t| ==> Partitioned(g, t, i)) && Successors(g, t)
  }

  /** Every node but the root has been visited (so the UCT score never divides by zero). */
  ghost predicate Visited<S, A>(t: UTree<S, A>)
  {
    forall c :: 0 < c < |t| ==> t[c].visitCount > 0
  }

  /** A consistent node has tried exactly the legal actions it has children for. */
  lemma FullyExpandedChildren<S, A, W>(g: Game<S, A, W>, t: UTree<S, A>, i: nat)
    requires Linked(t) && i < |t| && Partitioned(g, t, i)
    ensures |t[i].children| + |t[i].extra| == |g.legalActions(t[i].state)|
    ensures IsFullyExpanded(t[i]) <==> |t[i].children| == |g.legalActions(t[i].state)|
  {
  }

  /** The tree holding a single fresh root. */
  function NewTree<S, A, W>(g: Game<S, A, W>, s: S): (t: UTree<S, A>)
    ensures Linked(t) && Consistent(g, t) && Counted(t) && Visited(t)
    ensures |t| == 1 && t[0].state == s && t[0].visitCount == 0
  {
    var t := [NewNode(g, s, None, None)];
    assert Partitioned(g, t, 0) by {
      var legal := g.legalActions(s);
      assert legal[..|legal| - 0] == legal;
    }
    t
  }

  /** `u` is `t` after expanding node `i` once: its last untried action `a` is popped and a fresh
      child for `a` is appended at the end of the arena and of `i`'s children. */
  ghost predicate ExpandedOnce<S, A, W>(g: Game<S, A, W>, t: UTree<S, A>, i: nat, u: UTree<S, A>)
    requires i < |t| && |t[i].extra| > 0
  {
    var untried := t[i].extra;
    var a := untried[|untried| - 1];
    && |u| == |t| + 1
    && (forall j :: 0 <= j < |t| && j != i ==> u[j] == t[j])
    && u[i] == t[i].(children := t[i].children + [|t|], extra := untried[..|untried| - 1])
    && u[|t|] == NewNode(g, g.nextState(t[i].state, a), Some(i), Some(a))
  }

  /** `expand`: pops the last untried action and appends one child for it; returns the child. */
  function Expand<S, A, W>(g: Game<S, A, W>, t: UTree<S, A>, i: nat): (r: (UTree<S, A>, nat))
    requires i < |t| && |t[i].extra| > 0
    ensures r.1 == |t| && ExpandedOnce(g, t, i, r.0)
    ensures |r.0[i].children| + |r.0[i].extra| == |t[i].children| + |t[i].extra|
  {
    var untried := t[i].extra;
    var a := untried[|untried| - 1];
    var child := NewNode(g, g.nextState(t[i].state, a), Some(i), Some(a));
    (t[i := t[i].(children := t[i].children + [|t|], extra := untried[..|untried| - 1])] + [child], |t|)
  }

  /** Expanding keeps the tree linked, consistent and counted, and the only unvisited non-root
      node afterwards is the new child. */
  lemma ExpandKeeps<S, A, W>(g: Game<S, A, W>, t: UTree<S, A>, i: nat, u: UTree<S, A>)
    requires Linked(t) && Consistent(g, t) && i < |t| && |t[i].extra| > 0
    requires ExpandedOnce(g, t, i, u)
    ensures Linked(u) && Consistent(g, u)
    ensures Counted(t) ==> Counted(u)
    ensures Visited(t) ==> forall c :: 0 < c < |t| ==> u[c].visitCount > 0
    ensures u[0].state == t[0].state
  {
    assert seq(1, k => |t| + k) == [|t|];
    ChildrenAppendedLinked(t, i, 1, u);
    forall j | 0 <= j < |u|
      ensures Partitioned(g, u, j)
    {
      ExpandPartitioned(g, t, i, u, j);
    }
    ExpandSuccessors(g, t, i, u);
  }

  /** Every child, old or new, is still its parent's successor under its action. */
  lemma ExpandSuccessors<S, A, W>(g: Game<S, A, W>, t: UTree<S, A>, i: nat, u: UTree<S, A>)
    requires Linked(t) && i < |t| && |t[i].extra| > 0 && Successors(g, t) && ExpandedOnce(g, t, i, u)
    ensures Successors(g, u)
  {
    forall c | 0 < c < |u|
      ensures u[c].parentAction.Some?
    {
      if c < |t| {
        assert u[c].parentAction == t[c].parentAction;
      }
    }
    forall c, p | 0 < c < |u| && 0 <= p < |u| && u[c].parent == Some(p)
      ensures u[c].state == g.nextState(u[p].state, u[c].parentAction.value)
    {
      if c < |t| {
        assert u[c].state == t[c].state && u[c].parentAction == t[c].parentAction;
        assert u[c].parent == t[c].parent;
        assert u[p].state == t[p].state;
      }
    }
  }

  /** Expanding node `i` keeps every node partitioned: `i` moves its last untried action to
      the end of its children, and the new child starts with all of its legal actions. */
  lemma ExpandPartitioned<S, A, W>(g: Game<S, A, W>, t: UTree<S, A>, i: nat, u: UTree<S, A>, j: nat)
    requires Linked(t) && Consistent(g, t) && i < |t| && |t[i].extra| > 0
    requires ExpandedOnce(g, t, i, u) && Linked(u) && j < |u|
    ensures Partitioned(g, u, j)
  {
    if j == i {
      ExpandPartitionedSelf(g, t, i, u);
    } else if j < |t| {
      assert Partitioned(g, t, j);
      ExpandPartitionedOther(g, t, i, u, j);
    } else {
      var s := u[j].state;
      assert g.legalActions(s)[..|g.legalActions(s)| - 0] == g.legalActions(s);
      assert ChildActions(u, j) == [];
    }
  }

  /** A node other than the expanded one keeps its untried actions and its children's actions. */
  lemma ExpandPartitionedOther<S, A, W>(g: Game<S, A, W>, t: UTree<S, A>, i: nat, u: UTree<S, A>, j: nat)
    requires i < |t| && |t[i].extra| > 0 && j != i && ChildrenIn(t, j)
    requires ExpandedOnce(g, t, i, u) && Partitioned(g, t, j)
    ensures ChildrenIn(u, j) && Partitioned(g, u, j)
  {
    assert u[j] == t[j];
    assert ChildActions(u, j) == ChildActions(t, j) by {
      forall k | 0 <= k < |t[j].children|
        ensures u[t[j].children[k]].parentAction == t[t[j].children[k]].parentAction
      {
        assert t[j].children[k] < |t|;
      }
    }
  }

  /** The expanded node itself stays partitioned. */
  lemma ExpandPartitionedSelf<S, A, W>(g: Game<S, A, W>, t: UTree<S, A>, i: nat, u: UTree<S, A>)
    requires ChildrenIn(t, i) && |t[i].extra| > 0 && Partitioned(g, t, i)
    requires ExpandedOnce(g, t, i, u)
    ensures ChildrenIn(u, i) && Partitioned(g, u, i)
  {
    var legal := g.legalActions(t[i].state);
    var n := |t[i].children|;
    assert Partitioned(g, t, i);
    assert t[i].extra == legal[..|legal| - n];
    assert u[i].extra == legal[..|legal| - (n + 1)];
    var want := seq(n + 1, k requires 0 <= k < n + 1 => Some(legal[|legal| - 1 - k]));
    forall k | 0 <= k < n + 1
      ensures ChildActions(u, i)[k] == want[k]
    {
      if k < n {
        assert ChildActions(t, i)[k] == want[k];
        assert u[t[i].children[k]].parentAction == t[t[i].children[k]].parentAction;
      } else {
        assert u[i].children[n] == |t|;
      }
    }
  }

  /** The scores `best_child` compares, in child order. */
  function Scores<S, A>(uct: Uct, t: UTree<S, A>, i: nat): (xs: seq<real>)
    requires Linked(t) && i < |t|
    ensures |xs| == |t[i].children|
  {
    seq(|t[i].children|, k requires 0 <= k < |t[i].children| =>
      var c := t[i].children[k];
      uct(t[i].visitCount, t[c].visitCount, Q(t[c])))
  }

  /** `xs[k]` is maximal and every earlier element is strictly smaller. */
  ghost predicate FirstBest(xs: seq<real>, k: nat)
  {
    IsMax(xs, k) && forall j :: 0 <= j < k ==> xs[j] < xs[k]
  }

  /** `best_child`: the first child of maximal score; `max` of no children is an error. */
  function BestChild<S, A>(uct: Uct, t: UTree<S, A>, i: nat): (r: Result<nat>)
    requires Linked(t) && i < |t|
    ensures r.Err? <==> |t[i].children| == 0
    ensures r.Ok? ==> i < r.value < |t| && t[r.value].parent == Some(i)
    ensures r.Ok? ==> exists k :: 0 <= k < |t[i].children| && FirstBest(Scores(uct, t, i), k) &&
                                  t[i].children[k] == r.value
  {
    if |t[i].children| == 0 then Err(NoChildren)
    else Ok(t[i].children[FirstMax(Scores(uct, t, i))])
  }

  /** Every proper ancestor of node `e` is non-terminal and fully expanded. */
  ghost predicate AncestorsExpanded<S, A, W>(g: Game<S, A, W>, t: UTree<S, A>, e: nat)
    requires Linked(t) && e < |t|
  {
    var p := Path(t, e);
    forall k :: 1 <= k < |p| ==> !g.isTerminal(t[p[k]].state) && IsFullyExpanded(t[p[k]])
  }

  /** Stepping from a non-terminal, fully expanded node to one of its children keeps every
      ancestor expanded. */
  lemma AncestorsStep<S, A, W>(g: Game<S, A, W>, t: UTree<S, A>, i: nat, c: nat)
    requires Linked(t) && i < c < |t| && t[c].parent == Some(i)
    requires AncestorsExpanded(g, t, i) && !g.isTerminal(t[i].state) && IsFullyExpanded(t[i])
    ensures AncestorsExpanded(g, t, c)
  {
    assert Path(t, c) == [c] + Path(t, i);
  }

  /** Node `e` is non-terminal and fully expanded yet has no child, so `max` over its children
      fails. */
  ghost predicate Stuck<S, A, W>(g: Game<S, A, W>, t: UTree<S, A>, e: nat)
    requires e < |t|
  {
    !g.isTerminal(t[e].state) && IsFullyExpanded(t[e]) && t[e].children == []
  }

  /** Node `i` is where a descent by best child arrives: on the path from the root to `i`, the
      best child of every node above `i` is the next node of the path. */
  ghost predicate Descent<S, A>(uct: Uct, t: UTree<S, A>, i: nat)
    requires Linked(t) && i < |t|
  {
    var p := Path(t, i);
    forall k :: 0 < k < |p| ==> BestChild(uct, t, p[k]) == Ok(p[k - 1])
  }

  /** Stepping from a node of the descent to its best child continues the descent. */
  lemma DescentStep<S, A>(uct: Uct, t: UTree<S, A>, i: nat, c: nat)
    requires Linked(t) && i < |t| && Descent(uct, t, i) && BestChild(uct, t, i) == Ok(c)
    ensures c < |t| && Descent(uct, t, c)
  {
    assert Path(t, c) == [c] + Path(t, i);
  }

  /** `u` and `leaf` are what `select_node` returns from `t`: either `t` itself and the terminal
      node where the descent stops, or `t` after one expansion of the first node of the descent
      that still has untried actions, together with the new child. */
  ghost predicate Selected<S, A, W>(g: Game<S, A, W>, uct: Uct, t: UTree<S, A>, u: UTree<S, A>, leaf: nat)
    requires Linked(t)
  {
    || (u == t && leaf < |t| && g.isTerminal(t[leaf].state) && AncestorsExpanded(g, t, leaf) && Descent(uct, t, leaf))
    || (exists e :: 0 <= e < |t| && !g.isTerminal(t[e].state) && !IsFullyExpanded(t[e]) &&
          AncestorsExpanded(g, t, e) && Descent(uct, t, e) && ExpandedOnce(g, t, e, u) && leaf == |t|)
  }

  /** `select_node`: descends by best child through fully expanded nodes; returns a terminal
      node as it is, or expands the first node that still has untried actions and returns the
      new child. */
  method SelectNode<S(!new), A, W>(g: Game<S, A, W>, uct: Uct, t: UTree<S, A>) returns (r: Result<(UTree<S, A>, nat)>)
    requires Linked(t) && Consistent(g, t)
    ensures r.Err? ==> r.error == NoChildren
    ensures r.Err? ==> exists e :: 0 <= e < |t| && Stuck(g, t, e) && |g.legalActions(t[e].state)| == 0
    ensures LiveMoves(g) ==> r.Ok?
    ensures r.Ok? ==> Linked(r.value.0) && Consistent(g, r.value.0) && r.value.1 < |r.value.0|
    ensures r.Ok? ==> (Counted(t) ==> Counted(r.value.0)) && r.value.0[0].state == t[0].state
    ensures r.Ok? && !g.isTerminal(t[0].state) ==> |r.value.0[0].children| > 0
    ensures r.Ok? && Visited(t) ==> forall c :: 0 < c < |r.value.0| && c != r.value.1 ==> r.value.0[c].visitCount > 0
    ensures r.Ok? ==> r.value.0[0].visitCount == t[0].visitCount
    ensures r.Ok? ==> Selected(g, uct, t, r.value.0, r.value.1)
  {
    var cur := 0;
    while !g.isTerminal(t[cur].state)
      invariant cur < |t| && AncestorsExpanded(g, t, cur)
      invariant cur != 0 ==> |t[0].children| > 0
      invariant Descent(uct, t, cur)
      decreases |t| - cur
    {
      if !IsFullyExpanded(t[cur]) {
        var (u, child) := Expand(g, t, cur);
        ExpandKeeps(g, t, cur, u);
        return Ok((u, child));
      } else {
        var b := BestChild(uct, t, cur);
        if b.Err? {
          FullyExpandedChildren(g, t, cur);
          assert Stuck(g, t, cur);
          return Err(NoChildren);
        }
        AncestorsStep(g, t, cur, b.value);
        DescentStep(uct, t, cur, b.value);
        cur := b.value;
      }
    }
    return Ok((t, cur));
  }

  /** `backpropagate`: records `result` at node `i`, then recurses on the parent with the
      negated result, up to the root. */
  function Backpropagate<S, A, X>(t: Tree<S, A, X>, i: nat, result: int): (u: Tree<S, A, X>)
    requires Linked(t) && i < |t|
    ensures Backpropagated(t, i, result, u)
    decreases i
  {
    var t1 := t[i := Bump(t[i], result)];
    assert SameShape(t, t1);
    match t[i].parent
    case None => t1
    case Some(p) =>
      SameShapePath(t, t1, p);
      var u := Backpropagate(t1, p, -result);
      BackpropagateCons(t, i, result, t1, u);
      u
  }

  /** The recursive step of `Backpropagate`: recording at `i` and then at the path above it
      is recording along the whole path from `i`. */
  lemma BackpropagateCons<S, A, X>(t: Tree<S, A, X>, i: nat, result: int, t1: Tree<S, A, X>, u: Tree<S, A, X>)
    requires Linked(t) && i < |t| && t[i].parent.Some?
    requires t1 == t[i := Bump(t[i], result)] && Linked(t1)
    requires Path(t1, t[i].parent.value) == Path(t, t[i].parent.value)
    requires Backpropagated(t1, t[i].parent.value, -result, u)
    ensures Backpropagated(t, i, result, u)
  {
    var q := Path(t, t[i].parent.value);
    var p := Path(t, i);
    assert p == [i] + q;
    assert forall j :: 0 <= j < |q| ==> q[j] == p[j + 1] < p[0] == i;
    BackpropagateConsPath(t, i, result, t1, u, q);
  }

  /** `BackpropagateCons` for an arbitrary path `q` above `i`. */
  lemma BackpropagateConsPath<S, A, X>(t: Tree<S, A, X>, i: nat, result: int, t1: Tree<S, A, X>, u: Tree<S, A, X>,
                                       q: seq<nat>)
    requires i < |t| == |t1| == |u| && t1 == t[i := Bump(t[i], result)]
    requires forall j :: 0 <= j < |q| ==> q[j] < i
    requires forall j :: 0 <= j < |q| ==> u[q[j]] == Bump(t1[q[j]], Alternate(-result, j))
    requires forall j :: 0 <= j < |t1| && j !in q ==> u[j] == t1[j]
    ensures forall k :: 0 <= k < |[i] + q| ==> u[([i] + q)[k]] == Bump(t[([i] + q)[k]], Alternate(result, k))
    ensures forall j :: 0 <= j < |t| && j !in [i] + q ==> u[j] == t[j]
  {
    var p := [i] + q;
    forall k | 0 <= k < |p|
      ensures u[p[k]] == Bump(t[p[k]], Alternate(result, k))
    {
      if k == 0 {
        assert i !in q;
      } else {
        AlternateNegate(result, k - 1);
        assert p[k] == q[k - 1] && p[k] < i;
        assert u[q[k - 1]] == Bump(t1[q[k - 1]], Alternate(-result, k - 1));
      }
    }
    forall j | 0 <= j < |t| && j !in p
      ensures u[j] == t[j]
    {
      assert j !in q && j != i;
    }
  }

  /** One simulation pass. Adds one visit to the root, and keeps every non-root node visited.
      The selected tree and leaf are returned as `mid` and `leaf`: the rollout value of the leaf
      is what is backpropagated from it. */
  method Simulate<S(!new), A, W>(g: Game<S, A, W>, uct: Uct, t: UTree<S, A>, sim: nat, playout: (nat, S) -> S)
    returns (r: Result<UTree<S, A>>, ghost mid: UTree<S, A>, ghost leaf: nat)
    requires Linked(t) && Consistent(g, t) && Counted(t) && Visited(t)
    ensures r.Err? ==> r.error == NoChildren
    ensures r.Err? ==> exists e :: 0 <= e < |t| && Stuck(g, t, e) && |g.legalActions(t[e].state)| == 0
    ensures LiveMoves(g) ==> r.Ok?
    ensures r.Ok? ==> Linked(r.value) && Consistent(g, r.value) && Counted(r.value) && Visited(r.value)
    ensures r.Ok? ==> r.value[0].state == t[0].state && r.value[0].visitCount == t[0].visitCount + 1
    ensures r.Ok? && !g.isTerminal(t[0].state) ==> |r.value[0].children| > 0
    ensures r.Ok? ==> Selected(g, uct, t, mid, leaf) && Linked(mid) && leaf < |mid| &&
                      Backpropagated(mid, leaf, RolloutValue(g, mid[leaf].state, playout(sim, mid[leaf].state)), r.value)
  {
    mid, leaf := t, 0;
    var s := SelectNode(g, uct, t);
    if s.Err? {
      return Err(NoChildren), mid, leaf;
    }
    var (u1, l) := s.value;
    mid, leaf := u1, l;
    var value := RolloutValue(g, u1[l].state, playout(sim, u1[l].state));
    var u2 := Backpropagate(u1, l, value);
    BackpropagatedKeeps(u1, l, value, u2);
    SameShapeConsistent(g, u1, u2);
    BackpropagatedVisited(u1, l, value, u2);
    return Ok(u2), mid, leaf;
  }

  /** Backpropagation visits the leaf, so a tree whose only unvisited non-root node is the leaf
      comes out fully visited. */
  lemma BackpropagatedVisited<S, A>(t: UTree<S, A>, leaf: nat, result: int, u: UTree<S, A>)
    requires Linked(t) && leaf < |t| && Backpropagated(t, leaf, result, u)
    requires forall c :: 0 < c < |t| && c != leaf ==> t[c].visitCount > 0
    ensures Visited(u)
  {
    var p := Path(t, leaf);
    forall c | 0 < c < |u|
      ensures u[c].visitCount > 0
    {
      if c in p {
        var k :| 0 <= k < |p| && p[k] == c;
        assert u[c] == Bump(t[c], Alternate(result, k));
      } else {
        assert c != leaf;
      }
    }
  }

  /** Backpropagation changes only counts, so consistency with the game survives it. */
  lemma SameShapeConsistent<S, A, W>(g: Game<S, A, W>, t: UTree<S, A>, u: UTree<S, A>)
    requires Linked(t) && Consistent(g, t) && SameShape(t, u) && Linked(u)
    ensures Consistent(g, u)
  {
    forall i | 0 <= i < |u|
      ensures Partitioned(g, u, i)
    {
      assert Partitioned(g, t, i);
      assert ChildActions(u, i) == ChildActions(t, i);
    }
  }

  /** Every child was produced by one of its parent's legal actions. */
  lemma ChildLegal<S, A, W>(g: Game<S, A, W>, t: UTree<S, A>, i: nat, k: nat)
    requires Linked(t) && Consistent(g, t) && i < |t| && k < |t[i].children|
    ensures t[t[i].children[k]].parentAction.Some?
    ensures t[t[i].children[k]].parentAction.value in g.legalActions(t[i].state)
  {
    assert Partitioned(g, t, i);
    var legal := g.legalActions(t[i].state);
    assert ChildActions(t, i)[k] == Some(legal[|legal| - 1 - k]);
  }

  /** `best_action`: runs `n` simulations, then returns the action of the FIRST root child of
      maximal visit count. */
  method BestAction<S(!new), A, W>(g: Game<S, A, W>, uct: Uct, t: UTree<S, A>, n: nat, playout: (nat, S) -> S)
    returns (r: Result<A>, u: UTree<S, A>)
    requires Linked(t) && Consistent(g, t) && Counted(t) && Visited(t)
    ensures Linked(u) && Consistent(g, u) && Counted(u) && Visited(u) && u[0].state == t[0].state
    ensures r.Err? ==> r.error == NoChildren
    ensures r.Err? ==> |u[0].children| == 0 ||
                       exists e :: 0 <= e < |u| && Stuck(g, u, e) && |g.legalActions(u[e].state)| == 0
    ensures LiveMoves(g) && n > 0 && !g.isTerminal(t[0].state) ==> r.Ok?
    ensures r.Ok? ==> u[0].visitCount == t[0].visitCount + n
    ensures r.Ok? ==> r.value in g.legalActions(t[0].state)
    ensures r.Ok? ==> exists k :: 0 <= k < |u[0].children| && FirstBest(ChildVisits(u), k) &&
                                  u[u[0].children[k]].parentAction == Some(r.value)
  {
    u := t;
    var sim := 0;
    while sim < n
      invariant 0 <= sim <= n
      invariant Linked(u) && Consistent(g, u) && Counted(u) && Visited(u) && u[0].state == t[0].state
      invariant u[0].visitCount == t[0].visitCount + sim
      invariant sim > 0 && !g.isTerminal(t[0].state) ==> |u[0].children| > 0
    {
      var next, _, _ := Simulate(g, uct, u, sim, playout);
      if next.Err? {
        return Err(NoChildren), u;
      }
      u := next.value;
      sim := sim + 1;
    }
    if |u[0].children| == 0 {
      return Err(NoChildren), u;
    }
    var k := FirstMax(ChildVisits(u));
    var c := u[0].children[k];
    ChildLegal(g, u, 0, k);
    return Ok(u[c].parentAction.value), u;
  }
}
