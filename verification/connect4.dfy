/** Connect Four as played by the Rust engine: six rows of seven characters, row 0 at the
    bottom, pieces dropped into columns. */
module ConnectFour {
  import opened Wrappers
  import opened GameState
  import opened Boards

  type Grid = b: seq<seq<char>> | |b| == 6 && forall i :: 0 <= i < 6 ==> |b[i]| == 7
    witness seq(6, _ => seq(7, _ => ' '))

  /** An action is a column. */
  type Col = c: nat | c < 7

  datatype State = State(board: Grid, player: char)

  /** The player to move is always X or O (every successor toggles to one of them). */
  type Play = s: State | s.player == 'X' || s.player == 'O' witness State(seq(6, _ => seq(7, _ => ' ')), 'X')

  /** `State::new`: an empty board with X to move. */
  function New(): (s: Play)
    ensures forall i, j :: 0 <= i < 6 && 0 <= j < 7 ==> s.board[i][j] == Blank
    ensures s.player == 'X'
  {
    State(seq(6, _ => seq(7, _ => Blank)), 'X')
  }

  /** The first row at or above `r` whose cell in `col` is empty. */
  function FirstBlankFrom(b: Grid, col: Col, r: nat): (o: Option<nat>)
    requires r <= 6
    ensures o.Some? ==> r <= o.value < 6 && b[o.value][col] == Blank &&
                        forall k :: r <= k < o.value ==> b[k][col] != Blank
    ensures o.None? ==> forall k :: r <= k < 6 ==> b[k][col] != Blank
    decreases 6 - r
  {
    if r == 6 then None
    else if b[r][col] == Blank then Some(r)
    else FirstBlankFrom(b, col, r + 1)
  }

  /** `get_top_row`: the lowest empty row of a column, if any. */
  function TopRow(b: Grid, col: Col): (o: Option<nat>)
    ensures o.Some? ==> o.value < 6 && b[o.value][col] == Blank && forall k :: 0 <= k < o.value ==> b[k][col] != Blank
    ensures o.None? <==> forall k :: 0 <= k < 6 ==> b[k][col] != Blank
  {
    FirstBlankFrom(b, col, 0)
  }

  /** The filter of `get_legal_actions` over columns `c` onwards. */
  function LegalFrom(b: Grid, c: nat): (r: seq<Col>)
    requires c <= 7
    ensures forall x: Col :: x in r <==> c <= x && b[5][x] == Blank
    ensures forall i, j :: 0 <= i < j < |r| ==> r[i] < r[j]
    decreases 7 - c
  {
    if c == 7 then []
    else
      var rest := LegalFrom(b, c + 1);
      var here: seq<Col> := if b[5][c] == Blank then [c] else [];
      assert forall x :: x in rest ==> c < x;
      assert forall x: Col :: x in here + rest <==> x in here || x in rest;
      assert forall i, j :: 0 <= i < |here| && 0 <= j < |rest| ==> here[i] < rest[j] by {
        forall i, j | 0 <= i < |here| && 0 <= j < |rest|
          ensures here[i] < rest[j]
        {
          assert rest[j] in rest;
        }
      }
      here + rest
  }

  /** `get_legal_actions`: the columns whose top cell is empty, in ascending order. */
  function LegalActions(s: State): (r: seq<Col>)
    ensures forall x: Col :: x in r <==> s.board[5][x] == Blank
    ensures forall i, j :: 0 <= i < j < |r| ==> r[i] < r[j]
  {
    LegalFrom(s.board, 0)
  }

  /** A legal column always has an empty cell to drop into. */
  lemma LegalHasTop(s: State, a: Col)
    requires a in LegalActions(s)
    ensures TopRow(s.board, a).Some?
  {
  }

  /** `get_next_state`: the mover's piece goes into the lowest empty cell of column `a`; a full
      column leaves the board as it is. The turn passes to the other player in both cases. */
  function NextState(s: State, a: Col): (r: Play)
    ensures TopRow(s.board, a).Some? ==>
              var row := TopRow(s.board, a).value;
              r.board[row][a] == s.player &&
              forall i, j :: 0 <= i < 6 && 0 <= j < 7 && (i, j) != (row, a) ==> r.board[i][j] == s.board[i][j]
    ensures TopRow(s.board, a).None? ==> r.board == s.board
    ensures s.player == 'X' <==> r.player == 'O'
  {
    var b := s.board;
    var next := match TopRow(b, a)
      case Some(row) => b[row := b[row][a := s.player]]
      case None => b;
    State(next, Toggle(s.player))
  }

  /** Four cells from (r, c) in direction (dr, dc) hold one mark, and it is not blank. */
  predicate Four(b: Grid, r: int, c: int, dr: int, dc: int)
    requires 0 <= r < 6 && 0 <= c < 7 && 0 <= r + 3 * dr < 6 && 0 <= c + 3 * dc < 7
  {
    && b[r][c] != Blank
    && b[r][c] == b[r + dr][c + dc]
    && b[r][c] == b[r + 2 * dr][c + 2 * dc]
    && b[r][c] == b[r + 3 * dr][c + 3 * dc]
  }

  /** A nested `for` loop over `rows x cols` from position (r, c) on, in row-major order,
      stopping at the first position where `p` holds. */
  function Scan(p: (nat, nat) -> bool, r: nat, c: nat, rows: nat, cols: nat): (found: bool)
    requires c <= cols
    ensures found <==> exists i: nat, j: nat :: (r < i || (i == r && c <= j)) && i < rows && j < cols && p(i, j)
    decreases rows - r, cols - c
  {
    if r >= rows then false
    else if c == cols then Scan(p, r + 1, 0, rows, cols)
    else p(r, c) || Scan(p, r, c + 1, rows, cols)
  }

  /** The horizontal check of `get_result`: every row, windows starting in columns 0 to 3. */
  function Horizontal(b: Grid): bool
  {
    Scan((i: nat, j: nat) => i < 6 && j < 4 && Four(b, i, j, 0, 1), 0, 0, 6, 4)
  }

  /** The vertical check: windows starting in rows 0 to 2, every column. */
  function Vertical(b: Grid): bool
  {
    Scan((i: nat, j: nat) => i < 3 && j < 7 && Four(b, i, j, 1, 0), 0, 0, 3, 7)
  }

  /** The diagonal check: from rows 0 to 2, up-right from columns 0 to 3 and up-left from
      columns 3 to 6, both tried at each position. */
  function Diagonal(b: Grid): bool
  {
    Scan((i: nat, j: nat) => i < 3 && j < 7 && ((j <= 3 && Four(b, i, j, 1, 1)) || (j >= 3 && Four(b, i, j, 1, -1))),
         0, 0, 3, 7)
  }

  /** The four directions a line of four can run in. */
  const Dirs: seq<(int, int)> := [(0, 1), (1, 0), (1, 1), (1, -1)]

  /** A window of four starting at (r, c) in direction `d` lies on the board. */
  predicate Fits(r: int, c: int, d: (int, int))
  {
    0 <= r < 6 && 0 <= c < 7 && 0 <= r + 3 * d.0 < 6 && 0 <= c + 3 * d.1 < 7
  }

  /** Some window of four on the board, in any direction, holds four equal marks. */
  ghost predicate Won(b: Grid)
  {
    exists r: int, c: int, k :: 0 <= k < |Dirs| && Fits(r, c, Dirs[k]) && Four(b, r, c, Dirs[k].0, Dirs[k].1)
  }

  /** `get_result`: -1 (the player who just moved has won) or 0. */
  function GetResult(s: State): (v: int)
    ensures v == -1 || v == 0
    ensures v == -1 <==> Won(s.board)
  {
    ResultIffWon(s.board);
    if Horizontal(s.board) || Vertical(s.board) || Diagonal(s.board) then -1 else 0
  }

  /** The three scans together find exactly the complete windows. */
  lemma ResultIffWon(b: Grid)
    ensures Horizontal(b) || Vertical(b) || Diagonal(b) <==> Won(b)
  {
    if Won(b) {
      var r: int, c: int, k :| 0 <= k < |Dirs| && Fits(r, c, Dirs[k]) && Four(b, r, c, Dirs[k].0, Dirs[k].1);
      WonFound(b, r, c, k);
    }
    if Horizontal(b) {
      HorizontalWon(b);
    }
    if Vertical(b) {
      VerticalWon(b);
    }
    if Diagonal(b) {
      DiagonalWon(b);
    }
  }

  /** Each complete window is found by the scan for its direction. */
  lemma WonFound(b: Grid, r: int, c: int, k: nat)
    requires k < |Dirs| && Fits(r, c, Dirs[k]) && Four(b, r, c, Dirs[k].0, Dirs[k].1)
    ensures Horizontal(b) || Vertical(b) || Diagonal(b)
  {
    var i: nat, j: nat := r, c;
    if k == 0 {
      var p := (i': nat, j': nat) => i' < 6 && j' < 4 && Four(b, i', j', 0, 1);
      assert p(i, j);
    } else if k == 1 {
      var p := (i': nat, j': nat) => i' < 3 && j' < 7 && Four(b, i', j', 1, 0);
      assert p(i, j);
    } else {
      var p := (i': nat, j': nat) => i' < 3 && j' < 7 && ((j' <= 3 && Four(b, i', j', 1, 1)) || (j' >= 3 && Four(b, i', j', 1, -1)));
      assert p(i, j);
    }
  }

  lemma HorizontalWon(b: Grid)
    requires Horizontal(b)
    ensures Won(b)
  {
    var i: nat, j: nat :| i < 6 && j < 4 && Four(b, i, j, 0, 1);
    assert Fits(i, j, Dirs[0]) && Four(b, i, j, Dirs[0].0, Dirs[0].1);
  }

  lemma VerticalWon(b: Grid)
    requires Vertical(b)
    ensures Won(b)
  {
    var i: nat, j: nat :| i < 3 && j < 7 && Four(b, i, j, 1, 0);
    assert Fits(i, j, Dirs[1]) && Four(b, i, j, Dirs[1].0, Dirs[1].1);
  }

  lemma DiagonalWon(b: Grid)
    requires Diagonal(b)
    ensures Won(b)
  {
    var i: nat, j: nat :| i < 3 && j < 7 && ((j <= 3 && Four(b, i, j, 1, 1)) || (j >= 3 && Four(b, i, j, 1, -1)));
    if j <= 3 && Four(b, i, j, 1, 1) {
      assert Fits(i, j, Dirs[2]) && Four(b, i, j, Dirs[2].0, Dirs[2].1);
    } else {
      assert Fits(i, j, Dirs[3]) && Four(b, i, j, Dirs[3].0, Dirs[3].1);
    }
  }

  /** `is_terminal`: someone has won or every cell is filled. */
  function IsTerminal(s: State): (r: bool)
    ensures r <==> Won(s.board) || GridBlanks(s.board) == 0
  {
    GridCountZero(s.board, Blank);
    GetResult(s) != 0 || forall i, j :: 0 <= i < 6 && 0 <= j < 7 ==> s.board[i][j] != Blank
  }

  /** Pieces rest on the bottom or on another piece: above an empty cell everything is empty.
      `Connect4Env.Gravity` states the same for the integer board, where 0 is empty. */
  ghost predicate Gravity(b: Grid)
  {
    forall r, r', c {:trigger b[r][c], b[r'][c]} ::
      0 <= r < r' < 6 && 0 <= c < 7 && b[r][c] == Blank ==> b[r'][c] == Blank
  }

  /** On a board obeying gravity a column is legal exactly when it has an empty cell. */
  lemma LegalIffTop(s: State, a: Col)
    requires Gravity(s.board)
    ensures a in LegalActions(s) <==> TopRow(s.board, a).Some?
  {
    if TopRow(s.board, a).Some? {
      var row := TopRow(s.board, a).value;
      assert row == 5 || s.board[row][a] == Blank;
    }
  }

  /** Dropping a piece keeps gravity: it lands on the lowest empty cell. */
  lemma NextStateGravity(s: Play, a: Col)
    requires Gravity(s.board)
    ensures Gravity(NextState(s, a).board)
  {
    var b := s.board;
    var b' := NextState(s, a).board;
    if TopRow(b, a).Some? {
      var row := TopRow(b, a).value;
      forall r, r', c | 0 <= r < r' < 6 && 0 <= c < 7 && b'[r][c] == Blank
        ensures b'[r'][c] == Blank
      {
        assert b[r][c] == Blank;
        assert (r', c) != (row, a);
      }
    }
  }

  /** A legal move fills exactly one empty cell. */
  lemma LegalMoveShrinks(s: Play, a: Col)
    requires a in LegalActions(s)
    ensures GridBlanks(NextState(s, a).board) == GridBlanks(s.board) - 1
  {
    var b := s.board;
    var row := TopRow(b, a).value;
    GridCountMark(b, row, a, Blank, s.player);
    assert NextState(s, a).board == b[row := b[row][a := s.player]];
  }

  /** A game obeying gravity that is not over has a move. */
  lemma LiveHasMove(s: State)
    requires Gravity(s.board) && !IsTerminal(s)
    ensures |LegalActions(s)| > 0
  {
    GridCountZero(s.board, Blank);
    var i, j :| 0 <= i < 6 && 0 <= j < 7 && s.board[i][j] == Blank;
    assert i == 5 || s.board[5][j] == Blank;
    assert (j as Col) in LegalActions(s);
  }

  /** The empty board obeys gravity and offers all seven columns. */
  lemma NewLegalActions()
    ensures Gravity(New().board)
    ensures forall c: Col :: c in LegalActions(New())
  {
  }

  /** A random rollout to the end of the game, with the random choice supplied by `pick`: each
      step drops a piece into some legal column, the board loses an empty cell each time, so the
      rollout ends, and it ends in a terminal state that still obeys gravity. */
  function Playout(s: Play, pick: Play -> nat): (r: Play)
    requires Gravity(s.board)
    ensures IsTerminal(r) && Gravity(r.board)
    decreases GridBlanks(s.board)
  {
    if IsTerminal(s) then s
    else
      LiveHasMove(s);
      var actions := LegalActions(s);
      var a := actions[pick(s) % |actions|];
      LegalMoveShrinks(s, a);
      NextStateGravity(s, a);
      Playout(NextState(s, a), pick)
  }

  /** The score `get_policy` gives a move before the softmax: 100, plus 300 if the move wins for
      the mover, plus 200 if the same move would win for the opponent. */
  function MoveScore(s: State, a: Col): (v: int)
    ensures v == 100 || v == 300 || v == 400 || v == 600
    ensures v == 400 || v == 600 <==> Won(NextState(s, a).board)
    ensures v == 300 || v == 600 <==> Won(NextState(s.(player := Toggle(s.player)), a).board)
  {
    var mine := GetResult(NextState(s, a));
    var theirs := GetResult(NextState(s.(player := Toggle(s.player)), a));
    100 + (if mine != 0 then 300 else 0) + (if theirs != 0 then 200 else 0)
  }

  /** The pre-softmax scores of `get_policy`, one per action, in action order. */
  function Scores(s: State, actions: seq<Col>): (w: seq<int>)
    ensures |w| == |actions|
    ensures forall k :: 0 <= k < |w| ==> w[k] == MoveScore(s, actions[k])
  {
    seq(|actions|, k requires 0 <= k < |actions| => MoveScore(s, actions[k]))
  }

  /** The rules packaged for the search engine, with the pre-softmax scores as weights. */
  function Rules(): Game<Play, Col, int>
  {
    Game((s: Play) => IsTerminal(s), (s: Play) => PlayerTurn(s.player), (s: Play) => LegalActions(s),
         (s: Play, actions: seq<Col>) => Scores(s, actions), (s: Play, a: Col) => NextState(s, a),
         (s: Play) => GetResult(s))
  }

  /** Under these rules every position that obeys gravity and is not over has a legal move. A
      position whose top row is full above an empty cell has none, so the guarantee needs
      gravity. */
  lemma RulesLive(s: Play)
    requires Gravity(s.board)
    ensures !Rules().isTerminal(s) ==> |Rules().legalActions(s)| > 0
  {
    if !IsTerminal(s) {
      LiveHasMove(s);
    }
  }
}
