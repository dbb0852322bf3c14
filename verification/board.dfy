/** What the board games share: boards are rows of cells, the character games mark an empty
    cell with `' '`, and the mover alternates between X and O. */
module Boards {
  const Blank: char := ' '

  /** The number of cells of a row holding `x`. */
  function RowCount<T(==)>(row: seq<T>, x: T): nat
  {
    if |row| == 0 then 0 else (if row[0] == x then 1 else 0) + RowCount(row[1..], x)
  }

  /** The number of cells of a board holding `x`. */
  function GridCount<T(==)>(b: seq<seq<T>>, x: T): nat
  {
    if |b| == 0 then 0 else RowCount(b[0], x) + GridCount(b[1..], x)
  }

  /** The number of empty cells of a character board. */
  function GridBlanks(b: seq<seq<char>>): nat
  {
    GridCount(b, Blank)
  }

  /** A row holds no `x` exactly when its count is zero. */
  lemma {:induction false} RowCountZero<T>(row: seq<T>, x: T)
    ensures RowCount(row, x) == 0 <==> forall k :: 0 <= k < |row| ==> row[k] != x
  {
    if |row| > 0 {
      RowCountZero(row[1..], x);
      assert forall k :: 1 <= k < |row| ==> row[k] == row[1..][k - 1];
    }
  }

  /** A board holds no `x` exactly when its count is zero. */
  lemma {:induction false} GridCountZero<T>(b: seq<seq<T>>, x: T)
    ensures GridCount(b, x) == 0 <==> forall i, j :: 0 <= i < |b| && 0 <= j < |b[i]| ==> b[i][j] != x
  {
    if |b| > 0 {
      RowCountZero(b[0], x);
      GridCountZero(b[1..], x);
      assert forall i :: 1 <= i < |b| ==> b[i] == b[1..][i - 1];
    }
  }

  /** In a row made only of `x` every cell counts. */
  lemma {:induction false} RowCountAll<T>(row: seq<T>, x: T)
    requires forall k :: 0 <= k < |row| ==> row[k] == x
    ensures RowCount(row, x) == |row|
  {
    if |row| > 0 {
      RowCountAll(row[1..], x);
    }
  }

  /** In a board made only of `x`, with rows of length `m`, every cell counts. */
  lemma {:induction false} GridCountAll<T>(b: seq<seq<T>>, x: T, m: nat)
    requires forall i :: 0 <= i < |b| ==> |b[i]| == m
    requires forall i, j :: 0 <= i < |b| && 0 <= j < m ==> b[i][j] == x
    ensures GridCount(b, x) == |b| * m
  {
    if |b| > 0 {
      RowCountAll(b[0], x);
      GridCountAll(b[1..], x, m);
      assert forall i :: 1 <= i < |b| ==> b[1..][i - 1] == b[i];
    }
  }

  /** A row counts at most its length. */
  lemma {:induction false} RowCountBound<T>(row: seq<T>, x: T)
    ensures RowCount(row, x) <= |row|
  {
    if |row| > 0 {
      RowCountBound(row[1..], x);
    }
  }

  /** A board with rows of length `m` counts at most `m` per row. */
  lemma {:induction false} GridCountBound<T>(b: seq<seq<T>>, x: T, m: nat)
    requires forall i :: 0 <= i < |b| ==> |b[i]| == m
    ensures GridCount(b, x) <= |b| * m
  {
    if |b| > 0 {
      RowCountBound(b[0], x);
      GridCountBound(b[1..], x, m);
      assert forall i :: 1 <= i < |b| ==> b[1..][i - 1] == b[i];
      assert |b| * m == m + (|b| - 1) * m;
    }
  }

  /** Overwriting one `x` of a row with something else leaves one `x` fewer. */
  lemma {:induction false} RowCountMark<T>(row: seq<T>, j: nat, x: T, p: T)
    requires j < |row| && row[j] == x && p != x
    ensures RowCount(row[j := p], x) == RowCount(row, x) - 1
  {
    if j > 0 {
      RowCountMark(row[1..], j - 1, x, p);
      assert row[j := p][1..] == row[1..][j - 1 := p];
    } else {
      assert row[j := p][1..] == row[1..];
    }
  }

  /** Overwriting one `x` of a board with something else leaves one `x` fewer. */
  lemma {:induction false} GridCountMark<T>(b: seq<seq<T>>, i: nat, j: nat, x: T, p: T)
    requires i < |b| && j < |b[i]| && b[i][j] == x && p != x
    ensures GridCount(b[i := b[i][j := p]], x) == GridCount(b, x) - 1
  {
    if i > 0 {
      GridCountMark(b[1..], i - 1, j, x, p);
      assert b[i := b[i][j := p]][1..] == b[1..][i - 1 := b[1..][i - 1][j := p]];
    } else {
      RowCountMark(b[0], j, x, p);
      assert b[i := b[i][j := p]][1..] == b[1..];
    }
  }

  /** `get_player_turn` of both Rust games: X plays +1 and O plays -1; no other mark moves. */
  function PlayerTurn(p: char): (v: int)
    requires p == 'X' || p == 'O'
    ensures v == 1 <==> p == 'X'
    ensures v == -1 <==> p == 'O'
  {
    if p == 'X' then 1 else -1
  }

  /** The player who moves after `p`: O after X, and X after anything else. */
  function Toggle(p: char): (q: char)
    ensures q == 'X' || q == 'O'
    ensures p == 'X' <==> q == 'O'
  {
    if p == 'X' then 'O' else 'X'
  }
}
