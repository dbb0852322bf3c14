/** The search tree as an arena: a sequence of node records whose parent and children are indices
    into the same sequence. Index 0 is the root. This replaces the `Rc`/`Weak` ownership of the Rust
    engine and the object references of the Python one. */
module Arena {
  import opened Wrappers
  import opened GameState

  /** One search node. `extra` is the engine-specific part: the prior of every legal action in
      the Rust engine, the list of untried actions in the Python one. `results` counts, for every
      outcome value, how many simulations reported it at this node. */
  datatype Node<S, A, X> = Node(
    state: S,
    parent: Option<nat>,
    parentAction: Option<A>,
    children: seq<nat>,
    results: multiset<int>,
    visitCount: nat,
    extra: X)

  type Tree<S, A, X> = seq<Node<S, A, X>>

  /** The tree shape: a root at 0 without a parent; every other node has an earlier parent that
      lists it among its children; children are later nodes that point back, without repeats. */
  ghost predicate Linked<S, A, X>(t: Tree<S, A, X>)
  {
    && |t| > 0
    && t[0].parent == None
    && (forall i :: 0 < i < |t| ==> t[i].parent.Some? && t[i].parent.value < i)
    && (forall i, p {:trigger t[i].parent, t[p].children} ::
          0 < i < |t| && 0 <= p < |t| && t[i].parent == Some(p) ==> i in t[p].children)
    && (forall i, j :: 0 <= i < |t| && 0 <= j < |t[i].children| ==>
          i < t[i].children[j] < |t| && t[t[i].children[j]].parent == Some(i))
    && (forall i, j, k :: 0 <= i < |t| && 0 <= j < k < |t[i].children| ==>
          t[i].children[j] != t[i].children[k])
  }

  /** Every node's visit count equals the total of its result counts. */
  ghost predicate Counted<S, A, X>(t: Tree<S, A, X>)
  {
    forall i :: 0 <= i < |t| ==> t[i].visitCount == |t[i].results|
  }

  /** The nodes from `i` up to the root, `i` first. */
  function Path<S, A, X>(t: Tree<S, A, X>, i: nat): (p: seq<nat>)
    requires Linked(t) && i < |t|
    ensures |p| > 0 && p[0] == i && p[|p| - 1] == 0
    ensures forall k :: 0 <= k < |p| ==> p[k] < |t|
    ensures forall a, b {:trigger p[a], p[b]} :: 0 <= a < |p| && b == a + 1 < |p| ==> t[p[a]].parent == Some(p[b])
    ensures t[p[|p| - 1]].parent == None
    ensures Decreasing(p)
    decreases i
  {
    match t[i].parent
    case None => [i]
    case Some(q) => [i] + Path(t, q)
  }

  /** Strictly decreasing indices; in particular, no index repeats. */
  ghost predicate Decreasing(p: seq<nat>)
  {
    forall a, b :: 0 <= a < b < |p| ==> p[a] > p[b]
  }

  /** One visit reporting outcome `r`. */
  function Bump<S, A, X>(n: Node<S, A, X>, r: int): (n': Node<S, A, X>)
    ensures n'.visitCount == n.visitCount + 1
    ensures n'.results[r] == n.results[r] + 1
  {
    n.(visitCount := n.visitCount + 1, results := n.results + multiset{r})
  }

  /** The visit counts of the root's children, in child order. */
  function ChildVisits<S, A, X>(t: Tree<S, A, X>): (xs: seq<real>)
    requires Linked(t)
    ensures |xs| == |t[0].children|
  {
    seq(|t[0].children|, k requires 0 <= k < |t[0].children| => t[t[0].children[k]].visitCount as real)
  }

  /** `u` differs from `t` at most in visit and result counts. */
  ghost predicate SameShape<S, A, X>(t: Tree<S, A, X>, u: Tree<S, A, X>)
  {
    |u| == |t| &&
    forall i :: 0 <= i < |t| ==>
      u[i] == t[i].(visitCount := u[i].visitCount, results := u[i].results)
  }

  lemma SameShapeLinked<S, A, X>(t: Tree<S, A, X>, u: Tree<S, A, X>)
    requires Linked(t) && SameShape(t, u)
    ensures Linked(u)
  {
    forall i | 0 < i < |u|
      ensures i in u[u[i].parent.value].children
    {
      assert u[i].parent == t[i].parent;
    }
    forall i, j | 0 <= i < |u| && 0 <= j < |u[i].children|
      ensures i < u[i].children[j] < |u| && u[u[i].children[j]].parent == Some(i)
    {
      assert u[i].children == t[i].children;
      assert u[t[i].children[j]].parent == t[t[i].children[j]].parent;
    }
  }

  /** `u` is `t` after one backpropagation of `result` from `leaf`: the node at distance k above
      the leaf received outcome result * (-1)^k, and nothing off that path changed. */
  ghost predicate Backpropagated<S, A, X>(t: Tree<S, A, X>, leaf: nat, result: int, u: Tree<S, A, X>)
    requires Linked(t) && leaf < |t|
  {
    var p := Path(t, leaf);
    && |u| == |t|
    && (forall k :: 0 <= k < |p| ==> u[p[k]] == Bump(t[p[k]], Alternate(result, k)))
    && (forall i :: 0 <= i < |t| && i !in p ==> u[i] == t[i])
  }

  /** The first `k` nodes of the path `p` have received their outcome and nothing else changed:
      the state of a backpropagation walk after `k` steps. */
  ghost predicate PartlyBackpropagated<S, A, X>(t: Tree<S, A, X>, p: seq<nat>, result: int, k: nat, u: Tree<S, A, X>)
    requires k <= |p| && forall j :: 0 <= j < |p| ==> p[j] < |t|
  {
    && |u| == |t|
    && (forall j :: 0 <= j < k ==> u[p[j]] == Bump(t[p[j]], Alternate(result, j)))
    && (forall i :: 0 <= i < |t| && i !in p[..k] ==> u[i] == t[i])
  }

  /** One more step of the walk: node `p[k]` receives result * (-1)^k. */
  lemma BackpropagateStep<S, A, X>(t: Tree<S, A, X>, p: seq<nat>, result: int, k: nat, u: Tree<S, A, X>)
    requires k < |p| && (forall j :: 0 <= j < |p| ==> p[j] < |t|) && Decreasing(p)
    requires PartlyBackpropagated(t, p, result, k, u)
    ensures PartlyBackpropagated(t, p, result, k + 1, u[p[k] := Bump(u[p[k]], Alternate(result, k))])
  {
    var u' := u[p[k] := Bump(u[p[k]], Alternate(result, k))];
    assert p[k] !in p[..k];
    assert u[p[k]] == t[p[k]];
    forall j | 0 <= j < k + 1
      ensures u'[p[j]] == Bump(t[p[j]], Alternate(result, j))
    {
      if j < k {
        assert p[j] > p[k];
      }
    }
    forall i | 0 <= i < |t| && i !in p[..k + 1]
      ensures u'[i] == t[i]
    {
      assert p[..k + 1] == p[..k] + [p[k]];
      assert i != p[k] && i !in p[..k];
    }
  }

  /** Each node of a path links to the next one, and the last one is the root. */
  lemma PathLink<S, A, X>(t: Tree<S, A, X>, i: nat, k: nat)
    requires Linked(t) && i < |t| && k < |Path(t, i)|
    ensures t[Path(t, i)[k]].parent == if k + 1 < |Path(t, i)| then Some(Path(t, i)[k + 1]) else None
  {
    var p := Path(t, i);
    if k + 1 < |p| {
      assert t[p[k]].parent == Some(p[k + 1]);
    }
  }

  /** Backpropagation keeps the shape of the tree, keeps the count invariant, and adds exactly one
      visit to the root. */
  lemma BackpropagatedKeeps<S, A, X>(t: Tree<S, A, X>, leaf: nat, result: int, u: Tree<S, A, X>)
    requires Linked(t) && leaf < |t| && Backpropagated(t, leaf, result, u)
    ensures SameShape(t, u) && Linked(u)
    ensures Counted(t) ==> Counted(u)
    ensures u[0].visitCount == t[0].visitCount + 1
    ensures |u[0].results| == |t[0].results| + 1
  {
    var p := Path(t, leaf);
    forall i | 0 <= i < |t|
      ensures u[i] == t[i].(visitCount := u[i].visitCount, results := u[i].results)
      ensures t[i].visitCount == |t[i].results| ==> u[i].visitCount == |u[i].results|
    {
      if i in p {
        var k :| 0 <= k < |p| && p[k] == i;
        assert u[i] == Bump(t[i], Alternate(result, k));
      }
    }
    SameShapeLinked(t, u);
    assert u[p[|p| - 1]] == Bump(t[0], Alternate(result, |p| - 1));
  }

  /** Wins and losses together never exceed the number of recorded results. */
  lemma {:induction false} WinsLossesBound(m: multiset<int>)
    ensures m[1] + m[-1] <= |m|
    decreases |m|
  {
    if m[1] > 0 || m[-1] > 0 {
      var x := if m[1] > 0 then 1 else -1;
      var rest := m - multiset{x};
      assert m == rest + multiset{x};
      WinsLossesBound(rest);
    }
  }

  /** `u` is `t` with `m` new childless nodes appended as the last children of node `i`. */
  ghost predicate ChildrenAppended<S, A, X>(t: Tree<S, A, X>, i: nat, m: nat, u: Tree<S, A, X>)
  {
    && i < |t|
    && |u| == |t| + m
    && (forall j :: 0 <= j < |t| && j != i ==> u[j] == t[j])
    && u[i].parent == t[i].parent
    && u[i].children == t[i].children + seq(m, k => |t| + k)
    && (forall c :: |t| <= c < |u| ==> u[c].parent == Some(i) && u[c].children == [])
  }

  /** Appending fresh children keeps the tree linked. */
  lemma ChildrenAppendedLinked<S, A, X>(t: Tree<S, A, X>, i: nat, m: nat, u: Tree<S, A, X>)
    requires Linked(t) && ChildrenAppended(t, i, m, u)
    ensures Linked(u)
  {
    AppendedParents(t, i, m, u);
    AppendedListed(t, i, m, u);
    AppendedChildren(t, i, m, u);
    AppendedDistinct(t, i, m, u);
  }

  lemma AppendedParents<S, A, X>(t: Tree<S, A, X>, i: nat, m: nat, u: Tree<S, A, X>)
    requires Linked(t) && ChildrenAppended(t, i, m, u)
    ensures |u| > 0 && u[0].parent == None
    ensures forall c :: 0 < c < |u| ==> u[c].parent.Some? && u[c].parent.value < c
  {
    forall c | 0 < c < |u|
      ensures u[c].parent.Some? && u[c].parent.value < c
    {
      if c < |t| && c != i {
        assert u[c] == t[c];
      }
    }
    if i != 0 {
      assert u[0] == t[0];
    }
  }

  lemma AppendedListed<S, A, X>(t: Tree<S, A, X>, i: nat, m: nat, u: Tree<S, A, X>)
    requires Linked(t) && ChildrenAppended(t, i, m, u)
    ensures forall c, p {:trigger u[c].parent, u[p].children} ::
              0 < c < |u| && 0 <= p < |u| && u[c].parent == Some(p) ==> c in u[p].children
  {
    var added := seq(m, k => |t| + k);
    forall c, p | 0 < c < |u| && 0 <= p < |u| && u[c].parent == Some(p)
      ensures c in u[p].children
    {
      if c >= |t| {
        assert added[c - |t|] == c;
        assert u[p].children[|t[i].children| + (c - |t|)] == c;
      } else {
        assert u[c].parent == t[c].parent;
        assert c in t[p].children;
        if p != i {
          assert u[p] == t[p];
        }
      }
    }
  }

  lemma AppendedChildren<S, A, X>(t: Tree<S, A, X>, i: nat, m: nat, u: Tree<S, A, X>)
    requires Linked(t) && ChildrenAppended(t, i, m, u)
    ensures forall p, j :: 0 <= p < |u| && 0 <= j < |u[p].children| ==>
              p < u[p].children[j] < |u| && u[u[p].children[j]].parent == Some(p)
  {
    forall p, j | 0 <= p < |u| && 0 <= j < |u[p].children|
      ensures p < u[p].children[j] < |u| && u[u[p].children[j]].parent == Some(p)
    {
      if p == i {
        if j >= |t[i].children| {
          assert u[p].children[j] == |t| + (j - |t[i].children|);
        } else {
          assert u[p].children[j] == t[i].children[j];
        }
      } else if p < |t| {
        assert u[p] == t[p];
      }
    }
  }

  lemma AppendedDistinct<S, A, X>(t: Tree<S, A, X>, i: nat, m: nat, u: Tree<S, A, X>)
    requires Linked(t) && ChildrenAppended(t, i, m, u)
    ensures forall p, j, k :: 0 <= p < |u| && 0 <= j < k < |u[p].children| ==>
              u[p].children[j] != u[p].children[k]
  {
    forall p, j, k | 0 <= p < |u| && 0 <= j < k < |u[p].children|
      ensures u[p].children[j] != u[p].children[k]
    {
      if p == i {
        var n := |t[i].children|;
        if k >= n && j < n {
          assert u[p].children[k] >= |t| > u[p].children[j];
        }
      } else if p < |t| {
        assert u[p] == t[p];
      }
    }
  }

  /** Changing only counts leaves every path to the root as it was. */
  lemma {:induction false} SameShapePath<S, A, X>(t: Tree<S, A, X>, u: Tree<S, A, X>, i: nat)
    requires Linked(t) && SameShape(t, u) && i < |t|
    ensures Linked(u) && Path(u, i) == Path(t, i)
    decreases i
  {
    SameShapeLinked(t, u);
    assert u[i].parent == t[i].parent;
    if t[i].parent.Some? {
      SameShapePath(t, u, t[i].parent.value);
    }
  }
}
