/** The capability contract a game offers to the search engines (`GameState` in the Rust engine,
    the duck-typed `State` in the Python one), as a record of total functions. */
module GameState {

  /** A game over states `S`, actions `A` and prior weights `W`. */
  datatype Game<!S, !A, !W> = Game(
    isTerminal: S -> bool,
    playerTurn: S -> int,
    legalActions: S -> seq<A>,
    policy: (S, seq<A>) -> seq<W>,
    nextState: (S, A) -> S,
    result: S -> int)

  /** r * (-1)^k: the outcome `r` as seen k levels further up the tree. */
  function Alternate(r: int, k: nat): (v: int)
    ensures v == r || v == -r
  {
    if k == 0 then r else -Alternate(r, k - 1)
  }

  /** Negating the outcome shifts the alternation by one level. */
  lemma {:induction false} AlternateNegate(r: int, k: nat)
    ensures Alternate(-r, k) == Alternate(r, k + 1)
  {
    if k > 0 {
      AlternateNegate(r, k - 1);
    }
  }

  /** Every non-terminal state has a legal action. */
  ghost predicate LiveMoves<S(!new), A, W>(g: Game<S, A, W>)
  {
    forall s :: !g.isTerminal(s) ==> |g.legalActions(s)| > 0
  }

  /** The value a rollout reports: the result of the terminal state `last`, seen from the point of
      view of the player to move at the leaf state `leaf` where the rollout started. */
  function RolloutValue<S, A, W>(g: Game<S, A, W>, leaf: S, last: S): (v: int)
    ensures v == g.result(last) || v == -g.result(last)
    ensures g.result(last) != 0 ==> (v == g.result(last) <==> g.playerTurn(leaf) == g.playerTurn(last))
    ensures (g.playerTurn(leaf) == 1 || g.playerTurn(leaf) == -1) &&
            (g.playerTurn(last) == 1 || g.playerTurn(last) == -1) ==>
              v * g.playerTurn(leaf) == g.result(last) * g.playerTurn(last)
  {
    if g.playerTurn(leaf) == g.playerTurn(last) then g.result(last) else -g.result(last)
  }
}
