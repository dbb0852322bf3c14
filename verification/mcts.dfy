/** The Rust search engine: node construction with priors, expansion filtered by prior,
    selection with expand-then-step, backpropagation up the parent links, and the simulation loop
    that returns the action of the most visited root child. */
module Mcts {
  import opened Wrappers
  import opened GameState
  import opened Argmax
  import opened Arena

  /** A Rust node carries the prior of every legal action of its state. */
  type PNode<S, A, W> = Node<S, A, map<A, W>>
  type PTree<S, A, W> = Tree<S, A, map<A, W>>

  /** The floating-point parts of selection, left abstract: `keep` is the prior filter
      (prior > 1e-6) and `score` the PUCT score of a child from its parent's visit count, its own
      prior (absent counts as 0), its visit count and its q value. */
  datatype Selector<!W> = Selector(keep: W -> bool, score: (nat, Option<W>, nat, real) -> real)

  /** Pairs actions with weights as `zip(..).collect::<HashMap>()` does: the shorter sequence
      bounds the pairs, and a later duplicate key overwrites an earlier one. */
  function ZipMap<A, W>(actions: seq<A>, weights: seq<W>): map<A, W>
  {
    if |actions| == 0 || |weights| == 0 then map[]
    else
      var rest := ZipMap(actions[1..], weights[1..]);
      if actions[0] in rest then rest else rest[actions[0] := weights[0]]
  }

  /** The keys are the actions that have a weight, and each maps to the weight of its last
      occurrence. */
  lemma {:induction false} ZipMapSpec<A, W>(actions: seq<A>, weights: seq<W>)
    ensures ZipMap(actions, weights).Keys == set i | 0 <= i < |actions| && i < |weights| :: actions[i]
    ensures forall i :: 0 <= i < |actions| && i < |weights| &&
                        (forall j :: i < j < |actions| && j < |weights| ==> actions[j] != actions[i])
                        ==> ZipMap(actions, weights)[actions[i]] == weights[i]
  {
    if |actions| > 0 && |weights| > 0 {
      ZipMapSpec(actions[1..], weights[1..]);
      assert forall i :: 1 <= i < |actions| && i < |weights| ==> actions[i] == actions[1..][i - 1];
    }
  }

  /** The priors a node computes for its own state. */
  function Probs<S, A, W>(g: Game<S, A, W>, s: S): map<A, W>
  {
    ZipMap(g.legalActions(s), g.policy(s, g.legalActions(s)))
  }

  /** `Node::new`: no children, no results, no visits, and the priors of its state. */
  function NewNode<S, A, W>(g: Game<S, A, W>, s: S, parent: Option<nat>, action: Option<A>): (n: PNode<S, A, W>)
    ensures n.state == s && n.parent == parent && n.parentAction == action
    ensures n.children == [] && n.visitCount == 0 && n.results == multiset{}
    ensures n.extra == Probs(g, s)
  {
    var legal := g.legalActions(s);
    Node(s, parent, action, [], multiset{}, 0, ZipMap(legal, g.policy(s, legal)))
  }

  /** When the policy gives one weight per legal action, a node records a prior for exactly the
      legal actions. */
  lemma ProbsKeys<S, A, W>(g: Game<S, A, W>, s: S)
    requires |g.policy(s, g.legalActions(s))| == |g.legalActions(s)|
    ensures Probs(g, s).Keys == set a | a in g.legalActions(s)
  {
    var legal := g.legalActions(s);
    ZipMapSpec(legal, g.policy(s, legal));
    forall a | a in legal
      ensures a in Probs(g, s).Keys
    {
      var i :| 0 <= i < |legal| && legal[i] == a;
    }
  }

  /** A quotient whose numerator is at most the denominator in size lies in [-1, 1]. */
  lemma RatioBound(d: real, v: real)
    requires v > 0.0 && -v <= d <= v
    ensures -1.0 <= d / v <= 1.0
  {
  }

  /** `q`: -1 for an unvisited node, else (wins - losses) / visits, which lies in [-1, 1] when the
      visit count matches the result counts. */
  function Q<S, A, X>(n: Node<S, A, X>): (q: real)
    ensures n.visitCount == 0 ==> q == -1.0
    ensures n.visitCount > 0 ==> q * n.visitCount as real == (n.results[1] as int - n.results[-1] as int) as real
    ensures n.visitCount == |n.results| ==> -1.0 <= q <= 1.0
  {
    if n.visitCount > 0 then
      var v := n.visitCount as real;
      var d := (n.results[1] as int - n.results[-1] as int) as real;
      assert n.visitCount == |n.results| ==> -1.0 <= d / v <= 1.0 by {
        if n.visitCount == |n.results| {
          WinsLossesBound(n.results);
          RatioBound(d, v);
        }
      }
      d / v
    else -1.0
  }

  /** The prior the parent recorded for the action that produced node `c` (absent counts as 0). */
  function Prior<S, A, W>(t: PTree<S, A, W>, c: nat): Option<W>
    requires Linked(t) && c < |t|
  {
    match t[c].parent
    case None => None
    case Some(p) =>
      if t[c].parentAction.Some? && t[c].parentAction.value in t[p].extra
      then Some(t[p].extra[t[c].parentAction.value]) else None
  }

  /** In a consistent tree whose policy gives one weight per legal action, every non-root node
      finds a prior: the weight its parent's state gives to the node's action. */
  lemma PriorOfChild<S, A, W>(g: Game<S, A, W>, t: PTree<S, A, W>, c: nat)
    requires Linked(t) && Consistent(g, t) && 0 < c < |t|
    requires var s := t[t[c].parent.value].state; |g.policy(s, g.legalActions(s))| == |g.legalActions(s)|
    ensures var p := t[c].parent.value;
            t[c].parentAction.value in Probs(g, t[p].state) &&
            Prior(t, c) == Some(Probs(g, t[p].state)[t[c].parentAction.value])
  {
    var p := t[c].parent.value;
    ProbsKeys(g, t[p].state);
  }

  /** The selection scores of the children of node `i`, in child order. */
  function Scores<S, A, W>(sel: Selector<W>, t: PTree<S, A, W>, i: nat): (xs: seq<real>)
    requires Linked(t) && i < |t|
    ensures |xs| == |t[i].children|
  {
    seq(|t[i].children|, k requires 0 <= k < |t[i].children| =>
      var c := t[i].children[k];
      sel.score(t[i].visitCount, Prior(t, c), t[c].visitCount, Q(t[c])))
  }

  /** `xs[k]` is maximal and every later element is strictly smaller. */
  ghost predicate LastBest(xs: seq<real>, k: nat)
  {
    IsMax(xs, k) && forall j :: k < j < |xs| ==> xs[j] < xs[k]
  }

  /** `best_child`: the last child of maximal score; fails on a node without children. */
  function BestChild<S, A, W>(sel: Selector<W>, t: PTree<S, A, W>, i: nat): (r: Result<nat>)
    requires Linked(t) && i < |t|
    ensures r.Err? <==> |t[i].children| == 0
    ensures r.Err? ==> r.error == NoChildren
    ensures r.Ok? ==> i < r.value < |t| && t[r.value].parent == Some(i)
    ensures r.Ok? ==> exists k :: 0 <= k < |t[i].children| && LastBest(Scores(sel, t, i), k) &&
                                  t[i].children[k] == r.value
  {
    if |t[i].children| == 0 then Err(NoChildren)
    else
      var k := LastMax(Scores(sel, t, i));
      Ok(t[i].children[k])
  }

  /** The legal actions of a state whose prior is recorded and passes the filter, in legal order. */
  function Kept<A, W>(legal: seq<A>, probs: map<A, W>, keep: W -> bool): (r: seq<A>)
    ensures |r| <= |legal|
  {
    if |legal| == 0 then []
    else
      var a := legal[|legal| - 1];
      var front := Kept(legal[..|legal| - 1], probs, keep);
      if a in probs && keep(probs[a]) then front + [a] else front
  }

  /** An action survives the filter exactly when it is legal, has a recorded prior, and that
      prior passes. */
  lemma {:induction false} KeptIff<A, W>(legal: seq<A>, probs: map<A, W>, keep: W -> bool, a: A)
    ensures a in Kept(legal, probs, keep) <==> a in legal && a in probs && keep(probs[a])
  {
    if |legal| > 0 {
      var front := legal[..|legal| - 1];
      KeptIff(front, probs, keep, a);
      assert legal == front + [legal[|legal| - 1]];
    }
  }

  /** Every non-root node was produced by a legal action of its parent's state, and every node's
      priors are those its own state yields. */
  ghost predicate Consistent<S, A, W>(g: Game<S, A, W>, t: PTree<S, A, W>)
    requires Linked(t)
  {
    && (forall i :: 0 <= i < |t| ==> t[i].extra == Probs(g, t[i].state))
    && (forall c :: 0 < c < |t| ==> t[c].parentAction.Some?)
    && (forall c, p {:trigger t[c].parentAction, t[p].state} ::
          0 < c < |t| && 0 <= p < |t| && t[c].parent == Some(p) ==>
          && t[c].parentAction.value in g.legalActions(t[p].state)
          && t[c].state == g.nextState(t[p].state, t[c].parentAction.value))
  }

  /** `u` is `t` after expanding node `i`: one new node per kept action, appended in order, each
      a fresh child of `i`; node `i` gets exactly those children and nothing else changes. */
  ghost predicate Expanded<S, A, W>(g: Game<S, A, W>, sel: Selector<W>, t: PTree<S, A, W>, i: nat, u: PTree<S, A, W>)
    requires i < |t|
  {
    var kept := Kept(g.legalActions(t[i].state), t[i].extra, sel.keep);
    && |u| == |t| + |kept|
    && (forall j :: 0 <= j < |t| && j != i ==> u[j] == t[j])
    && u[i] == t[i].(children := seq(|kept|, k => |t| + k))
    && (forall k :: 0 <= k < |kept| ==>
          u[|t| + k] == NewNode(g, g.nextState(t[i].state, kept[k]), Some(i), Some(kept[k])))
  }

  /** Expanding a leaf keeps the tree linked. */
  lemma ExpandedLinked<S, A, W>(g: Game<S, A, W>, sel: Selector<W>, t: PTree<S, A, W>, i: nat, u: PTree<S, A, W>)
    requires Linked(t) && i < |t| && t[i].children == []
    requires Expanded(g, sel, t, i, u)
    ensures Linked(u)
  {
    var kept := Kept(g.legalActions(t[i].state), t[i].extra, sel.keep);
    forall c | |t| <= c < |u|
      ensures u[c].parent == Some(i) && u[c].children == []
    {
      var k := c - |t|;
      assert u[|t| + k] == NewNode(g, g.nextState(t[i].state, kept[k]), Some(i), Some(kept[k]));
    }
    assert t[i].children + seq(|kept|, k => |t| + k) == seq(|kept|, k => |t| + k);
    ChildrenAppendedLinked(t, i, |kept|, u);
  }

  /** Expanding a leaf keeps every node consistent with the game. */
  lemma ExpandedConsistent<S, A, W>(g: Game<S, A, W>, sel: Selector<W>, t: PTree<S, A, W>, i: nat, u: PTree<S, A, W>)
    requires Linked(t) && Consistent(g, t) && i < |t| && t[i].children == []
    requires Expanded(g, sel, t, i, u) && Linked(u)
    ensures Consistent(g, u)
  {
    var kept := Kept(g.legalActions(t[i].state), t[i].extra, sel.keep);
    forall c | 0 <= c < |u|
      ensures u[c].extra == Probs(g, u[c].state)
      ensures c > 0 ==> u[c].parentAction.Some?
    {
      if c >= |t| {
        var k := c - |t|;
        assert u[|t| + k] == NewNode(g, g.nextState(t[i].state, kept[k]), Some(i), Some(kept[k]));
      }
    }
    forall c, p | 0 < c < |u| && 0 <= p < |u| && u[c].parent == Some(p)
      ensures u[c].parentAction.value in g.legalActions(u[p].state)
      ensures u[c].state == g.nextState(u[p].state, u[c].parentAction.value)
    {
      if c >= |t| {
        var k := c - |t|;
        assert u[|t| + k] == NewNode(g, g.nextState(t[i].state, kept[k]), Some(i), Some(kept[k]));
        KeptIff(g.legalActions(t[i].state), t[i].extra, sel.keep, kept[k]);
      } else {
        assert u[c] == t[c] || c == i;
        assert u[p].state == t[p].state;
      }
    }
  }

  /** Expanding a leaf keeps the count invariant: the new nodes have neither visits nor results. */
  lemma ExpandedCounted<S, A, W>(g: Game<S, A, W>, sel: Selector<W>, t: PTree<S, A, W>, i: nat, u: PTree<S, A, W>)
    requires i < |t| && Counted(t) && Expanded(g, sel, t, i, u)
    ensures Counted(u)
  {
    var kept := Kept(g.legalActions(t[i].state), t[i].extra, sel.keep);
    forall c | 0 <= c < |u|
      ensures u[c].visitCount == |u[c].results|
    {
      if c >= |t| {
        var k := c - |t|;
        assert u[|t| + k] == NewNode(g, g.nextState(t[i].state, kept[k]), Some(i), Some(kept[k]));
      }
    }
  }

  /** Expanding a leaf keeps all three invariants, the root, and every existing children list. */
  lemma ExpandedKeeps<S, A, W>(g: Game<S, A, W>, sel: Selector<W>, t: PTree<S, A, W>, i: nat, u: PTree<S, A, W>)
    requires Linked(t) && Consistent(g, t) && i < |t| && t[i].children == []
    requires Expanded(g, sel, t, i, u)
    ensures Linked(u) && Consistent(g, u) && (Counted(t) ==> Counted(u))
    ensures u[0].state == t[0].state
    ensures forall j :: 0 <= j < |t| && |t[j].children| > 0 ==> u[j].children == t[j].children
  {
    ExpandedLinked(g, sel, t, i, u);
    ExpandedConsistent(g, sel, t, i, u);
    if Counted(t) {
      ExpandedCounted(g, sel, t, i, u);
    }
    assert i == 0 || u[0] == t[0];
  }

  /** The filter over a prefix grows by at most the next action. */
  lemma KeptSnoc<A, W>(legal: seq<A>, probs: map<A, W>, keep: W -> bool, n: nat)
    requires n < |legal|
    ensures legal[n] in probs && keep(probs[legal[n]]) ==>
              Kept(legal[..n + 1], probs, keep) == Kept(legal[..n], probs, keep) + [legal[n]]
    ensures !(legal[n] in probs && keep(probs[legal[n]])) ==>
              Kept(legal[..n + 1], probs, keep) == Kept(legal[..n], probs, keep)
  {
    assert legal[..n + 1][..n] == legal[..n];
  }

  /** `expand`: refuses a terminal node and a node that already has children; otherwise appends
      one child per legal action whose prior passes the filter. */
  method Expand<S, A, W>(g: Game<S, A, W>, sel: Selector<W>, t: PTree<S, A, W>, i: nat) returns (r: Result<PTree<S, A, W>>)
    requires i < |t|
    ensures g.isTerminal(t[i].state) ==> r == Err(TerminalExpansion)
    ensures !g.isTerminal(t[i].state) && |t[i].children| > 0 ==> r == Err(ReExpansion)
    ensures !g.isTerminal(t[i].state) && |t[i].children| == 0 ==> r.Ok? && Expanded(g, sel, t, i, r.value)
  {
    if g.isTerminal(t[i].state) {
      return Err(TerminalExpansion);
    }
    if |t[i].children| > 0 {
      return Err(ReExpansion);
    }
    var u, kids := AppendKept(g, sel, t, i);
    ghost var kept := Kept(g.legalActions(t[i].state), t[i].extra, sel.keep);
    assert forall k :: 0 <= k < |kept| ==> u[|t| + k] == NewNodes(g, t[i].state, i, kept)[k];
    u := u[i := u[i].(children := kids)];
    return Ok(u);
  }

  /** The fresh children of node `i` of state `s`, one per action of `ks`, in order. */
  function NewNodes<S, A, W>(g: Game<S, A, W>, s: S, i: nat, ks: seq<A>): (ns: seq<PNode<S, A, W>>)
    ensures |ns| == |ks|
  {
    seq(|ks|, k requires 0 <= k < |ks| => NewNode(g, g.nextState(s, ks[k]), Some(i), Some(ks[k])))
  }

  lemma NewNodesSnoc<S, A, W>(g: Game<S, A, W>, s: S, i: nat, ks: seq<A>, a: A)
    ensures NewNodes(g, s, i, ks + [a]) == NewNodes(g, s, i, ks) + [NewNode(g, g.nextState(s, a), Some(i), Some(a))]
  {
  }

  /** The loop of `expand`: walks the legal actions in order and appends a new child node of `i`
      for each one whose prior passes the filter. The new nodes take the next free indices, and
      those indices are the children list the loop pushes to. */
  method AppendKept<S, A, W>(g: Game<S, A, W>, sel: Selector<W>, t: PTree<S, A, W>, i: nat)
    returns (u: PTree<S, A, W>, kids: seq<nat>)
    requires i < |t|
    ensures var kept := Kept(g.legalActions(t[i].state), t[i].extra, sel.keep);
            u == t + NewNodes(g, t[i].state, i, kept) && kids == seq(|kept|, k => |t| + k)
  {
    var s := t[i].state;
    var legal := g.legalActions(s);
    var probs := t[i].extra;
    u := t;
    ghost var ks: seq<A> := [];
    var idx := 0;
    while idx < |legal|
      invariant 0 <= idx <= |legal|
      invariant ks == Kept(legal[..idx], probs, sel.keep)
      invariant u == t + NewNodes(g, s, i, ks)
    {
      var a := legal[idx];
      KeptSnoc(legal, probs, sel.keep, idx);
      if a in probs && sel.keep(probs[a]) {
        NewNodesSnoc(g, s, i, ks, a);
        u := u + [NewNode(g, g.nextState(s, a), Some(i), Some(a))];
        ks := ks + [a];
      }
      idx := idx + 1;
    }
    assert legal[..idx] == legal;
    kids := seq(|u| - |t|, k => |t| + k);
  }

  /** `backpropagate`: walks from the leaf to the root, recording the result at each node and
      negating it at every step up. */
  method Backpropagate<S, A, X>(t: Tree<S, A, X>, leaf: nat, result: int) returns (u: Tree<S, A, X>)
    requires Linked(t) && leaf < |t|
    ensures Backpropagated(t, leaf, result, u)
  {
    ghost var p := Path(t, leaf);
    forall k | 0 <= k < |p|
      ensures t[p[k]].parent == if k + 1 < |p| then Some(p[k + 1]) else None
    {
      PathLink(t, leaf, k);
    }
    u := Walk(t, leaf, result, p);
    assert p[..|p|] == p;
  }

  /** The loop of `backpropagate`, along a given chain of parent links `p` that starts at the leaf
      and ends at a node without parent. */
  method Walk<S, A, X>(t: Tree<S, A, X>, leaf: nat, result: int, ghost p: seq<nat>) returns (u: Tree<S, A, X>)
    requires |p| > 0 && p[0] == leaf && Decreasing(p)
    requires forall k :: 0 <= k < |p| ==> p[k] < |t|
    requires forall k :: 0 <= k < |p| ==> t[p[k]].parent == if k + 1 < |p| then Some(p[k + 1]) else None
    ensures PartlyBackpropagated(t, p, result, |p|, u)
  {
    var cur: Option<nat> := Some(leaf);
    var r := result;
    ghost var k := 0;
    u := t;
    while cur.Some?
      invariant 0 <= k <= |p|
      invariant cur == if k < |p| then Some(p[k]) else None
      invariant r == Alternate(result, k)
      invariant PartlyBackpropagated(t, p, result, k, u)
      decreases |p| - k
    {
      var i := cur.value;
      BackpropagateStep(t, p, result, k, u);
      assert t[i].parent == if k + 1 < |p| then Some(p[k + 1]) else None;
      u := u[i := Bump(u[i], r)];
      assert u[i] == Bump(t[i], Alternate(result, k));
      r := -r;
      cur := u[i].parent;
      k := k + 1;
    }
  }

  /** Node `e` is a non-terminal leaf none of whose legal actions passes the prior filter: once
      expanded it still has no child, so selection cannot step past it. */
  ghost predicate Stuck<S, A, W>(g: Game<S, A, W>, sel: Selector<W>, t: PTree<S, A, W>, e: nat)
    requires e < |t|
  {
    !g.isTerminal(t[e].state) && t[e].children == [] &&
    |Kept(g.legalActions(t[e].state), t[e].extra, sel.keep)| == 0
  }

  /** Every non-terminal state has a legal action whose prior passes the filter. */
  ghost predicate AlwaysKeeps<S(!new), A, W>(g: Game<S, A, W>, sel: Selector<W>)
  {
    forall s :: !g.isTerminal(s) ==> |Kept(g.legalActions(s), Probs(g, s), sel.keep)| > 0
  }

  /** Node `i` is where the descent of `select_node` arrives: on the path from the root to `i`,
      every node above `i` is non-terminal and its best child is the next node of the path. */
  ghost predicate Descent<S, A, W>(g: Game<S, A, W>, sel: Selector<W>, t: PTree<S, A, W>, i: nat)
    requires Linked(t) && i < |t|
  {
    var p := Path(t, i);
    forall k :: 0 < k < |p| ==> !g.isTerminal(t[p[k]].state) && BestChild(sel, t, p[k]) == Ok(p[k - 1])
  }

  /** Stepping from a non-terminal node of the descent to its best child continues the descent. */
  lemma DescentStep<S, A, W>(g: Game<S, A, W>, sel: Selector<W>, t: PTree<S, A, W>, i: nat, c: nat)
    requires Linked(t) && i < |t| && Descent(g, sel, t, i)
    requires !g.isTerminal(t[i].state) && BestChild(sel, t, i) == Ok(c)
    ensures c < |t| && Descent(g, sel, t, c)
  {
    var q := Path(t, i);
    var p := Path(t, c);
    assert p == [c] + q;
    forall k | 0 < k < |p|
      ensures !g.isTerminal(t[p[k]].state) && BestChild(sel, t, p[k]) == Ok(p[k - 1])
    {
      assert p[k] == q[k - 1];
      if k > 1 {
        assert p[k - 1] == q[k - 2];
      }
    }
  }

  /** `u` and `leaf` are what `select_node` returns from `t`: either `t` itself and the terminal
      node where the descent stops, or `t` with the childless node `e` where the descent stops
      expanded, together with the best child of `e`. */
  ghost predicate Selected<S, A, W>(g: Game<S, A, W>, sel: Selector<W>, t: PTree<S, A, W>, u: PTree<S, A, W>, leaf: nat)
    requires Linked(t)
  {
    || (u == t && leaf < |t| && g.isTerminal(t[leaf].state) && Descent(g, sel, t, leaf))
    || (exists e :: 0 <= e < |t| && !g.isTerminal(t[e].state) && t[e].children == [] && Descent(g, sel, t, e) &&
          Expanded(g, sel, t, e, u) && Linked(u) && BestChild(sel, u, e) == Ok(leaf) && u[leaf].parent == Some(e))
  }

  /** `select_node`: descends through expanded nodes by best child; at a non-terminal leaf it
      expands it and returns its best child; a terminal node is returned as it is. */
  method SelectNode<S(!new), A, W>(g: Game<S, A, W>, sel: Selector<W>, t: PTree<S, A, W>) returns (r: Result<(PTree<S, A, W>, nat)>)
    requires Linked(t) && Consistent(g, t)
    ensures r.Err? ==> r.error == NoChildren && exists e :: 0 <= e < |t| && Stuck(g, sel, t, e)
    ensures AlwaysKeeps(g, sel) ==> r.Ok?
    ensures r.Ok? ==> Linked(r.value.0) && Consistent(g, r.value.0) && r.value.1 < |r.value.0|
    ensures r.Ok? && !g.isTerminal(t[0].state) ==> |r.value.0[0].children| > 0
    ensures r.Ok? ==> (Counted(t) ==> Counted(r.value.0)) && r.value.0[0].state == t[0].state
    ensures r.Ok? ==> r.value.0[0].visitCount == t[0].visitCount
    ensures r.Ok? ==> Selected(g, sel, t, r.value.0, r.value.1)
    ensures r.Ok? ==> forall j :: 0 <= j < |t| && |t[j].children| > 0 ==> r.value.0[j].children == t[j].children
  {
    var cur := 0;
    while !g.isTerminal(t[cur].state)
      invariant cur < |t|
      invariant cur != 0 ==> |t[0].children| > 0
      invariant Descent(g, sel, t, cur)
      decreases |t| - cur
    {
      if |t[cur].children| == 0 {
        var e := Expand(g, sel, t, cur);
        var u := e.value;
        ExpandedKeeps(g, sel, t, cur, u);
        var b := BestChild(sel, u, cur);
        if b.Err? {
          assert Stuck(g, sel, t, cur);
          return Err(NoChildren);
        }
        return Ok((u, b.value));
      } else {
        var b := BestChild(sel, t, cur);
        DescentStep(g, sel, t, cur, b.value);
        cur := b.value;
      }
    }
    return Ok((t, cur));
  }

  /** The tree holding a single fresh root. */
  function NewTree<S, A, W>(g: Game<S, A, W>, s: S): (t: PTree<S, A, W>)
    ensures Linked(t) && Consistent(g, t) && Counted(t)
    ensures |t| == 1 && t[0].state == s && t[0].visitCount == 0
  {
    [NewNode(g, s, None, None)]
  }

  /** Backpropagation changes only counts, so consistency with the game survives it. */
  lemma SameShapeConsistent<S, A, W>(g: Game<S, A, W>, t: PTree<S, A, W>, u: PTree<S, A, W>)
    requires Linked(t) && Consistent(g, t) && SameShape(t, u) && Linked(u)
    ensures Consistent(g, u)
  {
    forall i | 0 <= i < |u|
      ensures u[i].state == t[i].state && u[i].extra == t[i].extra
      ensures u[i].parent == t[i].parent && u[i].parentAction == t[i].parentAction
    {
    }
  }

  /** One simulation pass: select (and expand), roll out, backpropagate. Adds one visit to the
      root; fails only when selection found no child to step to. The selected tree and leaf are
      returned as `mid` and `leaf`: the rollout value of the leaf is what is backpropagated from
      it. */
  method Simulate<S(!new), A, W>(g: Game<S, A, W>, sel: Selector<W>, t: PTree<S, A, W>, sim: nat, playout: (nat, S) -> S)
    returns (r: Result<PTree<S, A, W>>, ghost mid: PTree<S, A, W>, ghost leaf: nat)
    requires Linked(t) && Consistent(g, t) && Counted(t)
    ensures r.Err? ==> r.error == NoChildren && exists e :: 0 <= e < |t| && Stuck(g, sel, t, e)
    ensures AlwaysKeeps(g, sel) ==> r.Ok?
    ensures r.Ok? ==> Linked(r.value) && Consistent(g, r.value) && Counted(r.value)
    ensures r.Ok? ==> r.value[0].state == t[0].state && r.value[0].visitCount == t[0].visitCount + 1
    ensures r.Ok? && !g.isTerminal(t[0].state) ==> |r.value[0].children| > 0
    ensures r.Ok? ==> Selected(g, sel, t, mid, leaf) && Linked(mid) && leaf < |mid| &&
                      Backpropagated(mid, leaf, RolloutValue(g, mid[leaf].state, playout(sim, mid[leaf].state)), r.value)
  {
    mid, leaf := t, 0;
    var s := SelectNode(g, sel, t);
    if s.Err? {
      return Err(NoChildren), mid, leaf;
    }
    var (u1, l) := s.value;
    mid, leaf := u1, l;
    var value := RolloutValue(g, u1[l].state, playout(sim, u1[l].state));
    var u2 := Backpropagate(u1, l, value);
    BackpropagatedKeeps(u1, l, value, u2);
    SameShapeConsistent(g, u1, u2);
    return Ok(u2), mid, leaf;
  }

  /** `best_action`: runs `n` simulations (select, rollout, backpropagate), then returns the
      action of the last root child of maximal visit count. The rollout's terminal state in
      simulation k is `playout(k, leaf state)`. */
  method BestAction<S(!new), A, W>(g: Game<S, A, W>, sel: Selector<W>, t: PTree<S, A, W>, n: nat, playout: (nat, S) -> S)
    returns (r: Result<A>, u: PTree<S, A, W>)
    requires Linked(t) && Consistent(g, t) && Counted(t)
    ensures Linked(u) && Consistent(g, u) && Counted(u) && u[0].state == t[0].state
    ensures r.Err? ==> r.error == NoChildren
    ensures r.Err? ==> |u[0].children| == 0 || exists e :: 0 <= e < |u| && Stuck(g, sel, u, e)
    ensures AlwaysKeeps(g, sel) && n > 0 && !g.isTerminal(t[0].state) ==> r.Ok?
    ensures r.Ok? ==> u[0].visitCount == t[0].visitCount + n
    ensures r.Ok? ==> r.value in g.legalActions(t[0].state)
    ensures r.Ok? ==> exists k :: 0 <= k < |u[0].children| && LastBest(ChildVisits(u), k) &&
                                  u[u[0].children[k]].parentAction == Some(r.value)
  {
    u := t;
    var sim := 0;
    while sim < n
      invariant 0 <= sim <= n
      invariant Linked(u) && Consistent(g, u) && Counted(u) && u[0].state == t[0].state
      invariant u[0].visitCount == t[0].visitCount + sim
      invariant sim > 0 && !g.isTerminal(t[0].state) ==> |u[0].children| > 0
    {
      var next, _, _ := Simulate(g, sel, u, sim, playout);
      if next.Err? {
        return Err(NoChildren), u;
      }
      u := next.value;
      sim := sim + 1;
    }
    if |u[0].children| == 0 {
      return Err(NoChildren), u;
    }
    var k := LastMax(ChildVisits(u));
    var c := u[0].children[k];
    assert u[c].parent == Some(0);
    assert u[c].parentAction.value in g.legalActions(u[0].state);
    return Ok(u[c].parentAction.value), u;
  }
}
