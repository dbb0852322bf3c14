/** The Connect Four environment of the Python/JAX program: a 6x7 board of small integers
    (1 for X, -1 for O, 0 for empty, row 0 at the bottom), the player to move as +1 or -1, a
    `done` flag and the reward of the last step. The JAX arrays are `int8`. */
module Connect4Env {
  import opened Argmax
  import opened Boards
  import ConnectFour

  type Board = b: seq<seq<int>> | |b| == 6 && forall i :: 0 <= i < 6 ==> |b[i]| == 7
    witness seq(6, _ => seq(7, _ => 0))

  type Col = ConnectFour.Col

  datatype Env = Env(board: Board, player: int, done: bool, reward: int)

  /** Two's-complement wrap-around of an `int8` result. */
  function Wrap8(x: int): (y: int)
    ensures -128 <= y < 128
    ensures -128 <= x < 128 ==> y == x
  {
    (x + 128) % 256 - 128
  }

  /** The product of a winner and a player, as the program multiplies them. */
  function Times(w: int, p: int): (q: int)
    ensures p == 1 ==> q == w
    ensures p == -1 ==> q == -w
  {
    w * p
  }

  /** Cells, player and reward hold the values the program gives them. */
  ghost predicate Valid(e: Env)
  {
    && (forall i, j :: 0 <= i < 6 && 0 <= j < 7 ==> -1 <= e.board[i][j] <= 1)
    && (e.player == 1 || e.player == -1)
    && -1 <= e.reward <= 1
  }

  /** The rows of `xss` joined end to end (a nested list comprehension). */
  function Flatten<T>(xss: seq<seq<T>>): (r: seq<T>)
    ensures forall i, j :: 0 <= i < |xss| && 0 <= j < |xss[i]| ==> xss[i][j] in r
    ensures forall x :: x in r ==> exists i, j :: 0 <= i < |xss| && 0 <= j < |xss[i]| && x == xss[i][j]
  {
    if |xss| == 0 then []
    else
      var rest := Flatten(xss[1..]);
      assert forall i :: 1 <= i < |xss| ==> xss[1..][i - 1] == xss[i];
      xss[0] + rest
  }

  lemma {:induction false} FlattenLength<T>(xss: seq<seq<T>>, m: nat)
    requires forall i :: 0 <= i < |xss| ==> |xss[i]| == m
    ensures |Flatten(xss)| == |xss| * m
  {
    if |xss| > 0 {
      FlattenLength(xss[1..], m);
    }
  }

  /** `board[i:i+4, j:j+4]`. */
  function Block(b: Board, i: nat, j: nat): seq<seq<int>>
    requires i < 3 && j < 4
  {
    seq(4, m requires 0 <= m < 4 => b[i + m][j..j + 4])
  }

  /** `jnp.diag` of a 4x4 block. */
  function Diag(block: seq<seq<int>>): seq<int>
    requires |block| == 4 && forall m :: 0 <= m < 4 ==> |block[m]| == 4
  {
    seq(4, m requires 0 <= m < 4 => block[m][m])
  }

  /** `xs[::-1]`. */
  function Reverse<T>(xs: seq<T>): (r: seq<T>)
    ensures |r| == |xs| && forall k :: 0 <= k < |xs| ==> r[k] == xs[|xs| - 1 - k]
  {
    seq(|xs|, k requires 0 <= k < |xs| => xs[|xs| - 1 - k])
  }

  /** `board[i, j:j+4]`. */
  function HWindow(b: Board, i: nat, j: nat): seq<int>
    requires i < 6 && j < 4
  {
    b[i][j..j + 4]
  }

  /** `board[i:i+4, j]`. */
  function VWindow(b: Board, i: nat, j: nat): seq<int>
    requires i < 3 && j < 7
  {
    seq(4, m requires 0 <= m < 4 => b[i + m][j])
  }

  /** `jnp.diag(board[i:i+4, j:j+4])`. */
  function DWindow(b: Board, i: nat, j: nat): seq<int>
    requires i < 3 && j < 4
  {
    Diag(Block(b, i, j))
  }

  /** `jnp.diag(board[i:i+4, j:j+4][::-1])`. */
  function AWindow(b: Board, i: nat, j: nat): seq<int>
    requires i < 3 && j < 4
  {
    Diag(Reverse(Block(b, i, j)))
  }

  /** `horizontals`: for each row and each start column 0 to 3, four cells to the right. */
  function HTable(b: Board): (t: seq<seq<seq<int>>>)
    ensures |t| == 6 && forall i :: 0 <= i < 6 ==> |t[i]| == 4
  {
    seq(6, i requires 0 <= i < 6 => seq(4, j requires 0 <= j < 4 => HWindow(b, i, j)))
  }

  function Horizontals(b: Board): seq<seq<int>>
  {
    Flatten(HTable(b))
  }

  /** `verticals`: for each start row 0 to 2 and each column, four cells upwards. */
  function VTable(b: Board): (t: seq<seq<seq<int>>>)
    ensures |t| == 3 && forall i :: 0 <= i < 3 ==> |t[i]| == 7
  {
    seq(3, i requires 0 <= i < 3 => seq(7, j requires 0 <= j < 7 => VWindow(b, i, j)))
  }

  function Verticals(b: Board): seq<seq<int>>
  {
    Flatten(VTable(b))
  }

  /** `diagonals`: the main diagonal of every 4x4 block. */
  function DTable(b: Board): (t: seq<seq<seq<int>>>)
    ensures |t| == 3 && forall i :: 0 <= i < 3 ==> |t[i]| == 4
  {
    seq(3, i requires 0 <= i < 3 => seq(4, j requires 0 <= j < 4 => DWindow(b, i, j)))
  }

  function Diagonals(b: Board): seq<seq<int>>
  {
    Flatten(DTable(b))
  }

  /** `antidiagonals`: the main diagonal of every 4x4 block with its rows reversed. */
  function ATable(b: Board): (t: seq<seq<seq<int>>>)
    ensures |t| == 3 && forall i :: 0 <= i < 3 ==> |t[i]| == 4
  {
    seq(3, i requires 0 <= i < 3 => seq(4, j requires 0 <= j < 4 => AWindow(b, i, j)))
  }

  function Antidiagonals(b: Board): seq<seq<int>>
  {
    Flatten(ATable(b))
  }

  /** All windows `get_winner` looks at. */
  function AllLines(b: Board): seq<seq<int>>
  {
    Horizontals(b) + Verticals(b) + Diagonals(b) + Antidiagonals(b)
  }

  /** The four families hold 24, 21, 12 and 12 windows. */
  lemma WindowCounts(b: Board)
    ensures |Horizontals(b)| == 24 && |Verticals(b)| == 21
    ensures |Diagonals(b)| == 12 && |Antidiagonals(b)| == 12
  {
    FlattenLength(HTable(b), 4);
    FlattenLength(VTable(b), 7);
    FlattenLength(DTable(b), 4);
    FlattenLength(ATable(b), 4);
  }

  /** Every cell of `w` equals `p` (`jnp.all(line == p)`). */
  predicate AllEq(w: seq<int>, p: int)
  {
    forall m :: 0 <= m < |w| ==> w[m] == p
  }

  /** Some window is all `p` (`jnp.any(jnp.all(lines == p, axis=1))`). */
  predicate AnyLine(ws: seq<seq<int>>, p: int)
  {
    exists w :: w in ws && AllEq(w, p)
  }

  /** The `m`-th cell of the line of four from (r, c) in direction `Dirs[k]`. */
  function Along(b: Board, r: int, c: int, k: nat, m: nat): int
    requires k < 4 && m < 4 && ConnectFour.Fits(r, c, ConnectFour.Dirs[k])
  {
    if k == 0 then b[r][c + m]
    else if k == 1 then b[r + m][c]
    else if k == 2 then b[r + m][c + m]
    else b[r + m][c - m]
  }

  /** The four cells from (r, c) in direction `Dirs[k]` all hold `p`. */
  ghost predicate LineAt(b: Board, r: int, c: int, k: nat, p: int)
  {
    k < 4 && ConnectFour.Fits(r, c, ConnectFour.Dirs[k]) && forall m: nat :: m < 4 ==> Along(b, r, c, k, m) == p
  }

  /** Player `p` holds four in a row somewhere: horizontally, vertically or diagonally. */
  ghost predicate Line(b: Board, p: int)
  {
    exists r: int, c: int, k: nat :: LineAt(b, r, c, k, p)
  }

  lemma HWindowLine(b: Board, i: nat, j: nat, p: int)
    requires i < 6 && j < 4
    ensures AllEq(HWindow(b, i, j), p) <==> LineAt(b, i, j, 0, p)
  {
    assert ConnectFour.Fits(i, j, ConnectFour.Dirs[0]);
    assert forall m: nat :: m < 4 ==> Along(b, i, j, 0, m) == HWindow(b, i, j)[m];
  }

  lemma VWindowLine(b: Board, i: nat, j: nat, p: int)
    requires i < 3 && j < 7
    ensures AllEq(VWindow(b, i, j), p) <==> LineAt(b, i, j, 1, p)
  {
    assert ConnectFour.Fits(i, j, ConnectFour.Dirs[1]);
    assert forall m: nat :: m < 4 ==> Along(b, i, j, 1, m) == VWindow(b, i, j)[m];
  }

  lemma DWindowLine(b: Board, i: nat, j: nat, p: int)
    requires i < 3 && j < 4
    ensures AllEq(DWindow(b, i, j), p) <==> LineAt(b, i, j, 2, p)
  {
    assert ConnectFour.Fits(i, j, ConnectFour.Dirs[2]);
    assert forall m: nat :: m < 4 ==> Along(b, i, j, 2, m) == DWindow(b, i, j)[m];
  }

  /** The antidiagonal window of the block at (i, j) is the down-right line from (i, j + 3),
      read backwards. */
  lemma AWindowLine(b: Board, i: nat, j: nat, p: int)
    requires i < 3 && j < 4
    ensures AllEq(AWindow(b, i, j), p) <==> LineAt(b, i, j + 3, 3, p)
  {
    var c := j + 3;
    assert ConnectFour.Fits(i, c, ConnectFour.Dirs[3]);
    var w := AWindow(b, i, j);
    assert forall m: nat :: m < 4 ==> w[m] == Along(b, i, c, 3, 3 - m);
    if LineAt(b, i, c, 3, p) {
      forall m | 0 <= m < 4
        ensures w[m] == p
      {
        assert Along(b, i, c, 3, 3 - m) == w[m];
      }
    }
    if AllEq(w, p) {
      forall m: nat | m < 4
        ensures Along(b, i, c, 3, m) == p
      {
        assert w[3 - m] == Along(b, i, c, 3, m);
      }
    }
  }

  lemma {:induction false} AllWindows(b: Board, w: seq<int>)
    requires w in AllLines(b)
    ensures || (exists i: nat, j: nat :: i < 6 && j < 4 && w == HWindow(b, i, j))
            || (exists i: nat, j: nat :: i < 3 && j < 7 && w == VWindow(b, i, j))
            || (exists i: nat, j: nat :: i < 3 && j < 4 && w == DWindow(b, i, j))
            || (exists i: nat, j: nat :: i < 3 && j < 4 && w == AWindow(b, i, j))
  {
  }

  /** The windows of `get_winner` contain an all-`p` window exactly when `p` holds four in a
      row. */
  lemma LinesIff(b: Board, p: int)
    ensures AnyLine(AllLines(b), p) <==> Line(b, p)
  {
    if AnyLine(AllLines(b), p) {
      var w :| w in AllLines(b) && AllEq(w, p);
      AllWindows(b, w);
      if i: nat, j: nat :| i < 6 && j < 4 && w == HWindow(b, i, j) {
        HWindowLine(b, i, j, p);
      } else if i: nat, j: nat :| i < 3 && j < 7 && w == VWindow(b, i, j) {
        VWindowLine(b, i, j, p);
      } else if i: nat, j: nat :| i < 3 && j < 4 && w == DWindow(b, i, j) {
        DWindowLine(b, i, j, p);
      } else {
        var i: nat, j: nat :| i < 3 && j < 4 && w == AWindow(b, i, j);
        AWindowLine(b, i, j, p);
      }
    }
    if Line(b, p) {
      var r: int, c: int, k: nat :| LineAt(b, r, c, k, p);
      LineWindow(b, p, r, c, k);
    }
  }

  /** Every line of four appears among the windows, so `AnyLine` sees it. */
  lemma LineWindow(b: Board, p: int, r: int, c: int, k: nat)
    requires LineAt(b, r, c, k, p)
    ensures AnyLine(AllLines(b), p)
  {
    var i: nat, j: nat := r, c;
    if k == 0 {
      HWindowLine(b, i, j, p);
      HWindowIn(b, i, j);
    } else if k == 1 {
      VWindowLine(b, i, j, p);
      VWindowIn(b, i, j);
    } else if k == 2 {
      DWindowLine(b, i, j, p);
      DWindowIn(b, i, j);
    } else {
      AWindowLine(b, i, j - 3, p);
      AWindowIn(b, i, j - 3);
    }
  }

  lemma HWindowIn(b: Board, i: nat, j: nat)
    requires i < 6 && j < 4
    ensures HWindow(b, i, j) in AllLines(b)
  {
    assert HTable(b)[i][j] == HWindow(b, i, j);
  }

  lemma VWindowIn(b: Board, i: nat, j: nat)
    requires i < 3 && j < 7
    ensures VWindow(b, i, j) in AllLines(b)
  {
    assert VTable(b)[i][j] == VWindow(b, i, j);
  }

  lemma DWindowIn(b: Board, i: nat, j: nat)
    requires i < 3 && j < 4
    ensures DWindow(b, i, j) in AllLines(b)
  {
    assert DTable(b)[i][j] == DWindow(b, i, j);
  }

  lemma AWindowIn(b: Board, i: nat, j: nat)
    requires i < 3 && j < 4
    ensures AWindow(b, i, j) in AllLines(b)
  {
    assert ATable(b)[i][j] == AWindow(b, i, j);
  }

  /** `get_winner`: 1 if only X holds four in a row, -1 if only O does, else 0 (also when both
      do). */
  function GetWinner(b: Board): (v: int)
    ensures v == 1 <==> Line(b, 1) && !Line(b, -1)
    ensures v == -1 <==> Line(b, -1) && !Line(b, 1)
    ensures -1 <= v <= 1
  {
    var all := AllLines(b);
    LinesIff(b, 1);
    LinesIff(b, -1);
    (if AnyLine(all, 1) then 1 else 0) - (if AnyLine(all, -1) then 1 else 0)
  }

  /** `env_reset`: the empty board, X to move, not done, no reward. */
  function EnvReset(): (e: Env)
    ensures Valid(e) && !e.done && e.player == 1 && e.reward == 0
    ensures GridCount(e.board, 0) == 42 && Gravity(e.board)
  {
    var e := Env(seq(6, _ => seq(7, _ => 0)), 1, false, 0);
    EmptyCount(e.board);
    e
  }

  lemma EmptyCount(b: Board)
    requires forall i, j :: 0 <= i < 6 && 0 <= j < 7 ==> b[i][j] == 0
    ensures GridCount(b, 0) == 42
  {
    GridCountAll(b, 0, 7);
  }

  /** Every cell of column `col` is occupied. */
  ghost predicate ColumnFull(b: Board, col: Col)
  {
    forall r :: 0 <= r < 6 ==> b[r][col] != 0
  }

  /** `jnp.argmax(board[:, col] == 0)`: the first empty row, or 0 when there is none (the
      first maximum of an all-false column). */
  function FirstZeroRow(b: Board, col: Col): (row: nat)
    ensures row < 6
    ensures !ColumnFull(b, col) ==> b[row][col] == 0 && forall r :: 0 <= r < row ==> b[r][col] != 0
    ensures ColumnFull(b, col) ==> row == 0
  {
    var flags := seq(6, r requires 0 <= r < 6 => if b[r][col] == 0 then 1.0 else 0.0);
    var row := FirstMax(flags);
    FirstFlag(b, col, flags, row);
    row
  }

  lemma FirstFlag(b: Board, col: Col, flags: seq<real>, row: nat)
    requires flags == seq(6, r requires 0 <= r < 6 => if b[r][col] == 0 then 1.0 else 0.0)
    requires IsMax(flags, row) && forall r :: 0 <= r < row ==> flags[r] < flags[row]
    ensures !ColumnFull(b, col) ==> b[row][col] == 0 && forall r :: 0 <= r < row ==> b[r][col] != 0
    ensures ColumnFull(b, col) ==> row == 0
  {
    assert forall r :: 0 <= r < 6 ==> (flags[r] == 1.0 <==> b[r][col] == 0) && (flags[r] == 1.0 || flags[r] == 0.0);
    if ColumnFull(b, col) {
      assert flags[0] == flags[row];
    } else {
      var r :| 0 <= r < 6 && b[r][col] == 0;
      assert flags[r] == 1.0;
      assert flags[row] == 1.0;
      assert forall r' :: 0 <= r' < row ==> flags[r'] == 0.0;
    }
  }

  /** The board after `p` drops a piece into column `col`, which has an empty cell: the piece
      lands on the lowest empty cell and nothing else changes. */
  ghost predicate Dropped(b: Board, col: Col, p: int, b': Board)
  {
    exists i :: 0 <= i < 6 && b[i][col] == 0 && (forall k :: 0 <= k < i ==> b[k][col] != 0) &&
      b' == b[i := b[i][col := p]]
  }

  /** Every cell of the top row is occupied (`jnp.all(board[-1] != 0)`). */
  predicate TopFull(b: Board)
  {
    forall c :: 0 <= c < 7 ==> b[5][c] != 0
  }

  /** Player `p` holds four in a row and the opponent does not. */
  ghost predicate Wins(b: Board, p: int)
  {
    Line(b, p) && !Line(b, -p)
  }

  /** `env_step`. A finished game does not change. On a full column the move is invalid: the
      board stays, the reward is -1 and the game ends. Otherwise the mover's piece drops into
      the column and the reward is the winner times the mover. The game ends when the reward is
      not 0, the move was invalid or the top row is full, and the turn passes only if it goes
      on. Returns the new environment, its reward and its `done` flag. */
  function EnvStep(e: Env, col: Col): (r: (Env, int, bool))
    ensures r.1 == r.0.reward && r.2 == r.0.done
    ensures e.done ==> r.0.board == e.board && r.0.player == e.player && r.0.done && r.0.reward == 0
    ensures !e.done && ColumnFull(e.board, col) ==>
              r.0.board == e.board && r.0.reward == -1 && r.0.done && r.0.player == e.player
    ensures !e.done && !ColumnFull(e.board, col) ==> Dropped(e.board, col, e.player, r.0.board)
    ensures r.0.done <==> e.done || r.0.reward != 0 || ColumnFull(e.board, col) || TopFull(r.0.board)
    ensures r.0.player == if r.0.done then e.player else Wrap8(-e.player)
  {
    var row := FirstZeroRow(e.board, col);
    var invalid := e.board[row][col] != 0;
    var cell := if e.done || invalid then e.board[row][col] else e.player;
    var board := e.board[row := e.board[row][col := cell]];
    var reward := Wrap8(if e.done then 0 else if invalid then -1 else Wrap8(Times(GetWinner(board), e.player)));
    var done := e.done || reward != 0 || invalid || TopFull(board);
    assert e.board[row][col := e.board[row][col]] == e.board[row];
    (Env(board, if done then e.player else Wrap8(-e.player), done, reward), reward, done)
  }

  /** A step keeps cells, player and reward within their ranges. */
  lemma StepValid(e: Env, col: Col)
    requires Valid(e)
    ensures Valid(EnvStep(e, col).0)
  {
    var i := FirstZeroRow(e.board, col);
    var b' := EnvStep(e, col).0.board;
    forall r, c | 0 <= r < 6 && 0 <= c < 7
      ensures -1 <= b'[r][c] <= 1
    {
      assert b'[r][c] == e.board[r][c] || (r == i && c == col && b'[r][c] == e.player);
    }
  }

  /** After a piece is placed, the reward is 1 exactly when the mover alone holds four in a row
      and -1 exactly when the opponent alone does. */
  lemma StepReward(e: Env, col: Col)
    requires Valid(e) && !e.done && !ColumnFull(e.board, col)
    ensures var e' := EnvStep(e, col).0;
            && (e'.reward == 1 <==> Wins(e'.board, e.player))
            && (e'.reward == -1 <==> Wins(e'.board, -e.player))
  {
    var e' := EnvStep(e, col).0;
  }

  /** A step of a game in progress either ends it or fills one more cell: this bounds every
      rollout of the environment. */
  lemma StepProgress(e: Env, col: Col)
    requires Valid(e) && !e.done
    ensures EnvStep(e, col).0.done || GridCount(EnvStep(e, col).0.board, 0) == GridCount(e.board, 0) - 1
  {
    if !ColumnFull(e.board, col) {
      var i := FirstZeroRow(e.board, col);
      GridCountMark(e.board, i, col, 0, e.player);
    }
  }

  /** `valid_action_mask`: nothing is valid once the game is over; otherwise the columns whose
      top cell is empty. */
  function ValidActionMask(e: Env): (m: seq<bool>)
    ensures |m| == 7
    ensures forall c :: 0 <= c < 7 ==> (m[c] <==> !e.done && e.board[5][c] == 0)
  {
    if e.done then seq(7, _ => false) else seq(7, c requires 0 <= c < 7 => e.board[5][c] == 0)
  }

  /** Pieces rest on the bottom or on another piece: above an empty cell everything is empty.
      `ConnectFour.Gravity` states the same for the character board, where ' ' is empty. */
  ghost predicate Gravity(b: Board)
  {
    forall r, r', c {:trigger b[r][c], b[r'][c]} :: 0 <= r < r' < 6 && 0 <= c < 7 && b[r][c] == 0 ==> b[r'][c] == 0
  }

  /** A step keeps gravity: the piece lands on the lowest empty cell of its column. */
  lemma StepGravity(e: Env, col: Col)
    requires Gravity(e.board)
    ensures Gravity(EnvStep(e, col).0.board)
  {
    var b := e.board;
    var b' := EnvStep(e, col).0.board;
    var row := FirstZeroRow(b, col);
    assert forall r, c :: 0 <= r < 6 && 0 <= c < 7 && (r != row || c != col) ==> b'[r][c] == b[r][c];
  }

  /** The environment after stepping through the columns `cols` in order. */
  function Run(e: Env, cols: seq<Col>): Env
    decreases |cols|
  {
    if |cols| == 0 then e else Run(EnvStep(e, cols[0]).0, cols[1..])
  }

  /** Stepping keeps gravity along any sequence of columns. A reset board obeys it, so every
      environment reached from a reset does, and the converse half of `ValidMaskSound` and
      `PolicyScores` apply to it. */
  lemma {:induction false} RunGravity(e: Env, cols: seq<Col>)
    requires Gravity(e.board)
    ensures Gravity(Run(e, cols).board)
    decreases |cols|
  {
    if |cols| > 0 {
      StepGravity(e, cols[0]);
      RunGravity(EnvStep(e, cols[0]).0, cols[1..]);
    }
  }

  /** A column marked valid accepts a piece; under gravity the converse holds too. */
  lemma ValidMaskSound(e: Env, c: Col)
    ensures ValidActionMask(e)[c] ==> !e.done && !ColumnFull(e.board, c)
    ensures Gravity(e.board) && !e.done && !ColumnFull(e.board, c) ==> ValidActionMask(e)[c]
  {
    if Gravity(e.board) && !e.done && !ColumnFull(e.board, c) {
      var r :| 0 <= r < 6 && e.board[r][c] == 0;
      assert r == 5 || e.board[5][c] == 0;
    }
  }

  /** `winning_action_mask`: the columns where a step by `player` earns reward 1. */
  function WinningActionMask(e: Env, player: int): (w: seq<bool>)
    ensures |w| == 7
    ensures forall c: Col :: w[c] == (EnvStep(e.(player := player), c).1 == 1)
  {
    seq(7, c requires 0 <= c < 7 => EnvStep(e.(player := player), c).1 == 1)
  }

  /** For a real player, a winning column is one that accepts the piece and leaves that player,
      and only that player, with four in a row. */
  lemma WinningMaskMeans(e: Env, player: int, c: Col)
    requires Valid(e) && (player == 1 || player == -1)
    ensures WinningActionMask(e, player)[c] <==>
              !e.done && !ColumnFull(e.board, c) && Wins(EnvStep(e.(player := player), c).0.board, player)
  {
    assert Valid(e.(player := player));
  }

  /** `policy_function`: 100 for a valid column, plus 200 if the opponent would win there, plus
      300 if the mover wins there. */
  function PolicyFunction(e: Env): (s: seq<int>)
    ensures |s| == 7
    ensures e.done ==> forall c :: 0 <= c < 7 ==> s[c] == 0
  {
    var valid := ValidActionMask(e);
    var theirs := WinningActionMask(e, Wrap8(-e.player));
    var mine := WinningActionMask(e, e.player);
    seq(7, c requires 0 <= c < 7 =>
      (if valid[c] then 100 else 0) + (if theirs[c] then 200 else 0) + (if mine[c] then 300 else 0))
  }

  /** On a board obeying gravity a winning column is always valid, so every score is 0, 100,
      300, 400 or 600, and it tells which side a move wins for. */
  lemma PolicyScores(e: Env, c: Col)
    requires Valid(e) && Gravity(e.board)
    ensures var s := PolicyFunction(e)[c];
            && (s == 0 || s == 100 || s == 300 || s == 400 || s == 600)
            && (s == 0 <==> !ValidActionMask(e)[c])
            && (s == 400 || s == 600 <==> WinningActionMask(e, e.player)[c])
            && (s == 300 || s == 600 <==> WinningActionMask(e, -e.player)[c])
  {
    ValidMaskSound(e, c);
    WinningMaskMeans(e, e.player, c);
    WinningMaskMeans(e, -e.player, c);
  }
}
