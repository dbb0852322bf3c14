/** Tic-tac-toe as played by the Rust engine: a 3x3 board of characters, `' '` for an empty
    cell, and the mark of the player to move. */
module TicTacToe {
  import opened GameState
  import opened Boards
  import Mcts

  /** The board is always three rows of three cells. */
  type Grid = b: seq<seq<char>> | |b| == 3 && forall i :: 0 <= i < 3 ==> |b[i]| == 3
    witness [[' ', ' ', ' '], [' ', ' ', ' '], [' ', ' ', ' ']]

  /** An action is a (row, column) pair on the board. */
  type Cell = c: (nat, nat) | c.0 < 3 && c.1 < 3 witness (0, 0)

  datatype State = State(board: Grid, player: char)

  /** The player to move is always X or O (every successor toggles to one of them). */
  type Play = s: State | s.player == 'X' || s.player == 'O' witness State([[' ', ' ', ' '], [' ', ' ', ' '], [' ', ' ', ' ']], 'X')

  function At(b: Grid, c: Cell): char
  {
    b[c.0][c.1]
  }

  /** `State::new`: an empty board with X to move. */
  function New(): (s: Play)
    ensures forall c: Cell :: At(s.board, c) == Blank
    ensures s.player == 'X'
  {
    State(seq(3, _ => seq(3, _ => Blank)), 'X')
  }

  /** Row-major order of cells. */
  predicate Before(x: Cell, y: Cell)
  {
    x.0 < y.0 || (x.0 == y.0 && x.1 < y.1)
  }

  ghost predicate RowMajor(xs: seq<Cell>)
  {
    forall a, c :: 0 <= a < c < |xs| ==> Before(xs[a], xs[c])
  }

  /** The inner loop of `get_legal_actions`: the empty cells of row `i` from column `j` on. */
  function LegalRow(b: Grid, i: nat, j: nat): (r: seq<Cell>)
    requires i < 3 && j <= 3
    ensures forall x :: x in r ==> x.0 == i && j <= x.1 && At(b, x) == Blank
    ensures forall k :: j <= k < 3 && b[i][k] == Blank ==> (i, k) in r
    ensures RowMajor(r)
    decreases 3 - j
  {
    if j == 3 then []
    else
      (if b[i][j] == Blank then [(i, j)] else []) + LegalRow(b, i, j + 1)
  }

  /** The outer loop of `get_legal_actions`: the empty cells of rows `i` onwards. */
  function LegalRows(b: Grid, i: nat): (r: seq<Cell>)
    requires i <= 3
    ensures forall x :: x in r ==> i <= x.0 && At(b, x) == Blank
    ensures forall c: Cell :: i <= c.0 && At(b, c) == Blank ==> c in r
    ensures RowMajor(r)
    decreases 3 - i
  {
    if i == 3 then []
    else
      var row := LegalRow(b, i, 0);
      var rest := LegalRows(b, i + 1);
      RowMajorAppend(row, rest, i);
      row + rest
  }

  /** Cells of row `i` followed by cells of later rows stay in row-major order. */
  lemma RowMajorAppend(xs: seq<Cell>, ys: seq<Cell>, i: nat)
    requires RowMajor(xs) && RowMajor(ys)
    requires forall x :: x in xs ==> x.0 == i
    requires forall y :: y in ys ==> i < y.0
    ensures RowMajor(xs + ys)
  {
    forall a, c | 0 <= a < c < |xs + ys|
      ensures Before((xs + ys)[a], (xs + ys)[c])
    {
      if c >= |xs| && a < |xs| {
        assert xs[a] in xs && ys[c - |xs|] in ys;
      }
    }
  }

  /** `get_legal_actions`: exactly the empty cells, each once, in row-major order. */
  function LegalActions(s: State): (r: seq<Cell>)
    ensures forall c: Cell :: c in r <==> At(s.board, c) == Blank
    ensures RowMajor(r)
  {
    LegalRows(s.board, 0)
  }

  /** The inner loop yields one cell per empty cell of the rest of the row. */
  lemma {:induction false} LegalRowCount(b: Grid, i: nat, j: nat)
    requires i < 3 && j <= 3
    ensures |LegalRow(b, i, j)| == RowCount(b[i][j..], Blank)
    decreases 3 - j
  {
    if j < 3 {
      assert b[i][j..][1..] == b[i][j + 1..];
      LegalRowCount(b, i, j + 1);
    }
  }

  /** The outer loop yields one cell per empty cell of the remaining rows. */
  lemma {:induction false} LegalRowsCount(b: Grid, i: nat)
    requires i <= 3
    ensures |LegalRows(b, i)| == GridCount(b[i..], Blank)
    decreases 3 - i
  {
    if i < 3 {
      assert b[i..][1..] == b[i + 1..] && b[i][0..] == b[i];
      LegalRowCount(b, i, 0);
      LegalRowsCount(b, i + 1);
    }
  }

  /** There are as many legal actions as empty cells. */
  lemma LegalActionsCount(s: State)
    ensures |LegalActions(s)| == GridBlanks(s.board)
  {
    LegalRowsCount(s.board, 0);
    assert s.board[0..] == s.board;
  }

  /** The empty board offers all nine cells. */
  lemma NewLegalActions()
    ensures |LegalActions(New())| == 9
    ensures forall c: Cell :: c in LegalActions(New())
  {
    LegalActionsCount(New());
    NewBlanks();
  }

  /** The empty board has nine empty cells. */
  lemma NewBlanks()
    ensures GridBlanks(New().board) == 9
  {
    var b := New().board;
    forall i, j | 0 <= i < 3 && 0 <= j < 3
      ensures b[i][j] == Blank
    {
      var c: Cell := (i, j);
      assert At(b, c) == Blank;
    }
    GridCountAll(b, Blank, 3);
  }

  /** Cells `x`, `y`, `z` hold one mark, and it is not blank. */
  predicate Three(b: Grid, x: Cell, y: Cell, z: Cell)
  {
    At(b, x) == At(b, y) && At(b, y) == At(b, z) && At(b, x) != Blank
  }

  /** The loop of `get_result`, from index `i`: row `i` and column `i`, then the later ones,
      and after the loop the two diagonals. */
  function LinesFrom(b: Grid, i: nat): bool
    requires i <= 3
    decreases 3 - i
  {
    if i == 3 then Three(b, (0, 0), (1, 1), (2, 2)) || Three(b, (0, 2), (1, 1), (2, 0))
    else Three(b, (i, 0), (i, 1), (i, 2)) || Three(b, (0, i), (1, i), (2, i)) || LinesFrom(b, i + 1)
  }

  /** The eight lines of the board: three rows, three columns, two diagonals. */
  const Lines: seq<(Cell, Cell, Cell)> := [
    ((0, 0), (0, 1), (0, 2)), ((1, 0), (1, 1), (1, 2)), ((2, 0), (2, 1), (2, 2)),
    ((0, 0), (1, 0), (2, 0)), ((0, 1), (1, 1), (2, 1)), ((0, 2), (1, 2), (2, 2)),
    ((0, 0), (1, 1), (2, 2)), ((2, 0), (1, 1), (0, 2))]

  /** Some line holds three equal marks. */
  ghost predicate Won(b: Grid)
  {
    exists l :: 0 <= l < |Lines| && Three(b, Lines[l].0, Lines[l].1, Lines[l].2)
  }

  /** `get_result`: -1 (the player who just moved has won) or 0. */
  function GetResult(s: State): (r: int)
    ensures r == -1 || r == 0
  {
    if LinesFrom(s.board, 0) then -1 else 0
  }

  /** The result is -1 exactly when some row, column or diagonal is complete. */
  lemma ResultIffWon(s: State)
    ensures GetResult(s) == -1 <==> Won(s.board)
  {
    var b := s.board;
    assert LinesFrom(b, 0) <==>
      Three(b, (0, 0), (0, 1), (0, 2)) || Three(b, (0, 0), (1, 0), (2, 0)) ||
      Three(b, (1, 0), (1, 1), (1, 2)) || Three(b, (0, 1), (1, 1), (2, 1)) ||
      Three(b, (2, 0), (2, 1), (2, 2)) || Three(b, (0, 2), (1, 2), (2, 2)) ||
      Three(b, (0, 0), (1, 1), (2, 2)) || Three(b, (0, 2), (1, 1), (2, 0));
    if Won(b) {
      var l :| 0 <= l < |Lines| && Three(b, Lines[l].0, Lines[l].1, Lines[l].2);
      assert l < 8;
    }
    if LinesFrom(b, 0) {
      if Three(b, (0, 0), (0, 1), (0, 2)) { assert Three(b, Lines[0].0, Lines[0].1, Lines[0].2); }
      else if Three(b, (1, 0), (1, 1), (1, 2)) { assert Three(b, Lines[1].0, Lines[1].1, Lines[1].2); }
      else if Three(b, (2, 0), (2, 1), (2, 2)) { assert Three(b, Lines[2].0, Lines[2].1, Lines[2].2); }
      else if Three(b, (0, 0), (1, 0), (2, 0)) { assert Three(b, Lines[3].0, Lines[3].1, Lines[3].2); }
      else if Three(b, (0, 1), (1, 1), (2, 1)) { assert Three(b, Lines[4].0, Lines[4].1, Lines[4].2); }
      else if Three(b, (0, 2), (1, 2), (2, 2)) { assert Three(b, Lines[5].0, Lines[5].1, Lines[5].2); }
      else if Three(b, (0, 0), (1, 1), (2, 2)) { assert Three(b, Lines[6].0, Lines[6].1, Lines[6].2); }
      else { assert Three(b, Lines[7].0, Lines[7].1, Lines[7].2); }
    }
  }

  /** Every cell is marked. */
  predicate Full(b: Grid)
  {
    forall i, j :: 0 <= i < 3 && 0 <= j < 3 ==> b[i][j] != Blank
  }

  /** `is_terminal`: a line is complete or the board is full. */
  function IsTerminal(s: State): (r: bool)
    ensures r <==> Won(s.board) || GridBlanks(s.board) == 0
  {
    ResultIffWon(s);
    GridCountZero(s.board, Blank);
    GetResult(s) != 0 || Full(s.board)
  }

  /** A state that is not over has a move. */
  lemma LiveHasMove(s: State)
    requires !IsTerminal(s)
    ensures |LegalActions(s)| > 0
  {
    LegalActionsCount(s);
  }

  /** `get_next_state`: the mover's mark goes into cell `a`, every other cell is kept, and the
      turn passes to the other player. The cell is overwritten whether or not it was empty. */
  function NextState(s: State, a: Cell): (r: Play)
    ensures At(r.board, a) == s.player
    ensures forall c: Cell :: c != a ==> At(r.board, c) == At(s.board, c)
    ensures s.player == 'X' || s.player == 'O' ==> PlayerTurn(r.player) == -PlayerTurn(s.player)
  {
    State(s.board[a.0 := s.board[a.0][a.1 := s.player]], Toggle(s.player))
  }

  /** A move into an empty cell (every legal action is one) fills exactly that cell: one empty
      cell fewer. */
  lemma LegalMoveShrinks(s: Play, a: Cell)
    requires At(s.board, a) == Blank
    ensures GridBlanks(NextState(s, a).board) == GridBlanks(s.board) - 1
  {
    var b := s.board;
    GridCountMark(b, a.0, a.1, Blank, s.player);
    assert NextState(s, a).board == b[a.0 := b[a.0][a.1 := s.player]];
  }

  /** The uniform weight vector of `get_policy`. */
  function Policy(actions: seq<Cell>): (w: seq<real>)
    ensures |w| == |actions|
    ensures forall k :: 0 <= k < |w| ==> w[k] * (|actions| as real) == 1.0
  {
    seq(|actions|, k requires 0 <= k < |actions| => 1.0 / (|actions| as real))
  }

  function Sum(w: seq<real>): real
  {
    if |w| == 0 then 0.0 else w[0] + Sum(w[1..])
  }

  /** The uniform weights of a non-empty action list sum to one. */
  lemma PolicySums(actions: seq<Cell>)
    requires |actions| > 0
    ensures Sum(Policy(actions)) == 1.0
  {
    var n := |actions| as real;
    UniformSum(Policy(actions), 1.0 / n);
  }

  lemma {:induction false} UniformSum(w: seq<real>, x: real)
    requires forall k :: 0 <= k < |w| ==> w[k] == x
    ensures Sum(w) == (|w| as real) * x
  {
    if |w| > 0 {
      UniformSum(w[1..], x);
    }
  }

  /** A random rollout to the end of the game, with the random choice supplied by `pick`: every
      step plays some legal action, the board loses an empty cell each time, so the rollout
      ends, and it ends in a terminal state. */
  function Playout(s: Play, pick: Play -> nat): (r: Play)
    ensures IsTerminal(r)
    ensures GridBlanks(r.board) <= GridBlanks(s.board)
    decreases GridBlanks(s.board)
  {
    if IsTerminal(s) then s
    else
      LiveHasMove(s);
      var actions := LegalActions(s);
      var a := actions[pick(s) % |actions|];
      LegalMoveShrinks(s, a);
      Playout(NextState(s, a), pick)
  }

  /** The rules packaged for the search engine. */
  function Rules(): Game<Play, Cell, real>
  {
    Game((s: Play) => IsTerminal(s), (s: Play) => PlayerTurn(s.player), (s: Play) => LegalActions(s),
         (s: Play, actions: seq<Cell>) => Policy(actions), (s: Play, a: Cell) => NextState(s, a),
         (s: Play) => GetResult(s))
  }

  /** Under these rules every position that is not over has a legal move. */
  lemma RulesLive()
    ensures LiveMoves(Rules())
  {
    forall s: Play | !Rules().isTerminal(s)
      ensures |Rules().legalActions(s)| > 0
    {
      LiveHasMove(s);
    }
  }

  /** A uniform share of at most nine moves passes the engine's prior filter (above 1e-6). */
  lemma UniformShareKept(n: nat)
    requires 1 <= n <= 9
    ensures 1.0 / (n as real) > 0.000001
  {
    var k := n as real;
    if n <= 3 {
      assert k == 1.0 || k == 2.0 || k == 3.0;
    } else if n <= 6 {
      assert k == 4.0 || k == 5.0 || k == 6.0;
    } else {
      assert k == 7.0 || k == 8.0 || k == 9.0;
    }
  }

  /** The last legal move of a live position gets the uniform prior. */
  lemma LastPrior(s: Play)
    requires !IsTerminal(s)
    ensures var legal := LegalActions(s);
            |legal| > 0 && legal[|legal| - 1] in Mcts.Probs(Rules(), s) &&
            Mcts.Probs(Rules(), s)[legal[|legal| - 1]] == Policy(legal)[|legal| - 1]
  {
    LiveHasMove(s);
    Mcts.ZipMapSpec(LegalActions(s), Policy(LegalActions(s)));
  }

  /** With the engine's prior filter, which keeps a prior above 1e-6, every position that is not
      over keeps at least one action: the uniform prior over at most nine moves is at least 1/9. */
  lemma RulesKeep(sel: Mcts.Selector<real>)
    requires forall w: real :: w > 0.000001 ==> sel.keep(w)
    ensures Mcts.AlwaysKeeps(Rules(), sel)
  {
    forall s: Play | !Rules().isTerminal(s)
      ensures |Mcts.Kept(Rules().legalActions(s), Mcts.Probs(Rules(), s), sel.keep)| > 0
    {
      var legal := LegalActions(s);
      var n := |legal|;
      LastPrior(s);
      LegalActionsCount(s);
      GridCountBound(s.board, Blank, 3);
      UniformShareKept(n);
      Mcts.KeptIff(legal, Mcts.Probs(Rules(), s), sel.keep, legal[n - 1]);
    }
  }
}
