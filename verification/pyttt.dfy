/** Tic-tac-toe as written for the Python engine. The board and actions are those of
    `TicTacToe`; the rules are written the Python way (a list comprehension over the cell
    product, chained comparisons) and shown to agree with the Rust rules. */
module PyTicTacToe {
  import opened Wrappers
  import opened GameState
  import opened Boards
  import opened TicTacToe

  /** `State.__init__`: a missing board is replaced by an empty one. */
  function Init(board: Option<Grid>, player: char): (s: State)
    ensures s.player == player
    ensures board.Some? ==> s.board == board.value
    ensures board.None? ==> forall c: Cell :: At(s.board, c) == Blank
  {
    State(if board.Some? then board.value else New().board, player)
  }

  /** `range(3) x range(3)` in the order the comprehension enumerates it. */
  const Product: seq<Cell> := [(0, 0), (0, 1), (0, 2), (1, 0), (1, 1), (1, 2), (2, 0), (2, 1), (2, 2)]

  /** The comprehension's `if board[i][j] == ' '` applied to a list of cells. */
  function KeepBlank(b: Grid, cs: seq<Cell>): (r: seq<Cell>)
    ensures forall c :: c in r <==> c in cs && At(b, c) == Blank
  {
    if |cs| == 0 then [] else (if At(b, cs[0]) == Blank then [cs[0]] else []) + KeepBlank(b, cs[1..])
  }

  /** `get_legal_actions`. */
  function LegalActions(s: State): (r: seq<Cell>)
    ensures forall c :: c in r ==> c in Product && At(s.board, c) == Blank
  {
    KeepBlank(s.board, Product)
  }

  lemma {:induction false} KeepBlankAppend(b: Grid, xs: seq<Cell>, ys: seq<Cell>)
    ensures KeepBlank(b, xs + ys) == KeepBlank(b, xs) + KeepBlank(b, ys)
  {
    if |xs| > 0 {
      KeepBlankAppend(b, xs[1..], ys);
      var head := if At(b, xs[0]) == Blank then [xs[0]] else [];
      assert (xs + ys)[0] == xs[0] && (xs + ys)[1..] == xs[1..] + ys;
      assert KeepBlank(b, xs + ys) == head + KeepBlank(b, xs[1..] + ys);
      assert KeepBlank(b, xs) == head + KeepBlank(b, xs[1..]);
    } else {
      assert xs + ys == ys;
    }
  }

  /** Filtering row `i` of the product is the Rust scan of row `i`. */
  lemma KeepBlankRow(b: Grid, i: nat)
    requires i < 3
    ensures KeepBlank(b, [(i, 0), (i, 1), (i, 2)]) == TicTacToe.LegalRow(b, i, 0)
  {
    var c0: Cell, c1: Cell, c2: Cell := (i, 0), (i, 1), (i, 2);
    assert [c0, c1, c2][1..] == [c1, c2] && [c1, c2][1..] == [c2] && [c2][1..] == [];
    assert KeepBlank(b, [c2]) == TicTacToe.LegalRow(b, i, 2);
    assert KeepBlank(b, [c1, c2]) == TicTacToe.LegalRow(b, i, 1);
  }

  /** The comprehension yields exactly the Rust legal actions: the empty cells in row-major
      order. */
  lemma LegalActionsAgree(s: State)
    ensures LegalActions(s) == TicTacToe.LegalActions(s)
  {
    var b := s.board;
    var r0: seq<Cell>, r1: seq<Cell>, r2: seq<Cell> := [(0, 0), (0, 1), (0, 2)], [(1, 0), (1, 1), (1, 2)], [(2, 0), (2, 1), (2, 2)];
    assert Product == r0 + (r1 + r2);
    KeepBlankAppend(b, r0, r1 + r2);
    KeepBlankAppend(b, r1, r2);
    KeepBlankRow(b, 0);
    KeepBlankRow(b, 1);
    KeepBlankRow(b, 2);
    LegalRowsUnfold(b);
  }

  lemma LegalRowsUnfold(b: Grid)
    ensures TicTacToe.LegalRows(b, 0) ==
            TicTacToe.LegalRow(b, 0, 0) + (TicTacToe.LegalRow(b, 1, 0) + TicTacToe.LegalRow(b, 2, 0))
  {
    assert TicTacToe.LegalRows(b, 2) == TicTacToe.LegalRow(b, 2, 0) + TicTacToe.LegalRows(b, 3);
  }

  /** Python's chained comparison `a == b == c != ' '`: the LAST cell is compared with blank. */
  predicate Chain(b: Grid, x: Cell, y: Cell, z: Cell)
  {
    At(b, x) == At(b, y) && At(b, y) == At(b, z) && At(b, z) != Blank
  }

  /** The loop of `get_result` from index `i`, then the two diagonals. */
  function ChainsFrom(b: Grid, i: nat): bool
    requires i <= 3
    decreases 3 - i
  {
    if i == 3 then Chain(b, (0, 0), (1, 1), (2, 2)) || Chain(b, (0, 2), (1, 1), (2, 0))
    else Chain(b, (i, 0), (i, 1), (i, 2)) || Chain(b, (0, i), (1, i), (2, i)) || ChainsFrom(b, i + 1)
  }

  /** `get_result`: -1 exactly when some line is complete, else 0. */
  function GetResult(s: State): (r: int)
    ensures r == -1 || r == 0
    ensures r == -1 <==> Won(s.board)
  {
    ResultAgree(s);
    ResultIffWon(s);
    if ChainsFrom(s.board, 0) then -1 else 0
  }

  /** Testing the last cell or the first against blank is the same once all three are equal,
      so the Python and Rust results agree on every board. */
  lemma ResultAgree(s: State)
    ensures ChainsFrom(s.board, 0) == TicTacToe.LinesFrom(s.board, 0)
  {
    var b := s.board;
    assert forall x, y, z :: Chain(b, x, y, z) == Three(b, x, y, z);
    assert ChainsFrom(b, 2) == TicTacToe.LinesFrom(b, 2);
  }

  /** `is_terminal`: a line is complete or no cell is empty. */
  function IsTerminal(s: State): (r: bool)
    ensures r <==> Won(s.board) || GridBlanks(s.board) == 0
    ensures r == TicTacToe.IsTerminal(s)
  {
    GridCountZero(s.board, Blank);
    GetResult(s) != 0 || forall i, j :: 0 <= i < 3 && 0 <= j < 3 ==> s.board[i][j] != Blank
  }

  /** `get_next_state`: copy the board, write the mover's mark at the action, toggle the mover. */
  function NextState(s: State, a: Cell): (r: State)
    ensures At(r.board, a) == s.player
    ensures forall c: Cell :: c != a ==> At(r.board, c) == At(s.board, c)
    ensures s.player == 'X' <==> r.player == 'O'
    ensures r == TicTacToe.NextState(s, a)
  {
    var row := s.board[a.0][a.1 := s.player];
    State(s.board[a.0 := row], if s.player == 'X' then 'O' else 'X')
  }

  /** The rules packaged for the Python engine. The turn marker is compared for equality only,
      so any injective encoding of it as an integer serves; the engine never asks for a policy. */
  function Rules(): Game<State, Cell, real>
  {
    Game((s: State) => IsTerminal(s), (s: State) => s.player as int, (s: State) => LegalActions(s),
         (s: State, actions: seq<Cell>) => Policy(actions), (s: State, a: Cell) => NextState(s, a),
         (s: State) => GetResult(s))
  }

  /** Under these rules every position that is not over has a legal move. */
  lemma RulesLive()
    ensures LiveMoves(Rules())
  {
    forall s: State | !Rules().isTerminal(s)
      ensures |Rules().legalActions(s)| > 0
    {
      LegalActionsAgree(s);
      TicTacToe.LiveHasMove(s);
    }
  }
}
