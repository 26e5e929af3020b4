/**
 Boards, coordinates and the small vocabulary shared by the boundary walk and
 the critical-cell search.

 A board is an n x n grid indexed `[row][col]`; a cell holds 1 (the first
 player, who connects top to bottom) or 2 (the second player, who connects
 left to right). Cells are plain integers, as in `HexMonteCarlo.py`, so
 that a board with any other value can still be handed to the solver.
 */
module HexBoard {

  /** An integer pair: a cell of a board, or a vertex of the walk's window. */
  datatype Coord = Coord(row: int, col: int)

  type Board = seq<seq<int>>

  /** Failures of the solver. `NoDecision`: neither turn rule applies;
      `BadExit`: the walk left the board at neither winning corner;
      `EmptyBoard`: the board has no first row to measure;
      `OutOfFuel`: the step bound of the model ran out. */
  datatype Fault = NoDecision | BadExit | EmptyBoard | OutOfFuel

  datatype Result<T> = Ok(value: T) | Err(error: Fault)

  predicate IsSquare(b: Board) {
    forall i :: 0 <= i < |b| ==> |b[i]| == |b|
  }

  predicate IsPlayer(v: int) {
    v == 1 || v == 2
  }

  /** A completely filled board: square, every cell taken by one of the two players. */
  predicate Filled(b: Board) {
    IsSquare(b) && forall i, j :: 0 <= i < |b| && 0 <= j < |b| ==> IsPlayer(b[i][j])
  }

  predicate InBoard(c: Coord, n: int) {
    0 <= c.row < n && 0 <= c.col < n
  }

  /** The n x n board whose every cell is `v`. */
  function Uniform(n: nat, v: int): (b: Board)
    ensures |b| == n && IsSquare(b)
    ensures forall i, j :: 0 <= i < n && 0 <= j < n ==> b[i][j] == v
  {
    seq(n, _ => seq(n, _ => v))
  }

  /** The set of elements of a recorded sequence. */
  function Cells(s: seq<Coord>): (r: set<Coord>)
    ensures forall c :: c in r <==> c in s
  {
    set c | c in s
  }

  // ---------------------------------------------------------------------------
  // The 180-degree rotation of a board (numpy's rot90 applied twice)
  // ---------------------------------------------------------------------------

  /** The point reflection of a cell through the centre of an n x n board. */
  function RotateCell(c: Coord, n: int): Coord {
    Coord(n - 1 - c.row, n - 1 - c.col)
  }

  lemma RotateCellInvolution(c: Coord, n: int)
    ensures RotateCell(RotateCell(c, n), n) == c
    ensures InBoard(c, n) <==> InBoard(RotateCell(c, n), n)
  {
  }

  function Rotate180(b: Board): (r: Board)
    requires IsSquare(b)
    ensures |r| == |b| && IsSquare(r)
    ensures forall c {:trigger RotateCell(c, |b|)} :: InBoard(c, |b|) ==>
      r[RotateCell(c, |b|).row][RotateCell(c, |b|).col] == b[c.row][c.col]
  {
    var n := |b|;
    seq(n, i requires 0 <= i < n => seq(n, j requires 0 <= j < n => b[n - 1 - i][n - 1 - j]))
  }

  /** Rotating twice gives the board back, and rotation keeps a board filled. */
  lemma Rotate180Involution(b: Board)
    requires IsSquare(b)
    ensures Rotate180(Rotate180(b)) == b
    ensures Filled(b) <==> Filled(Rotate180(b))
  {
    var n := |b|;
    var r := Rotate180(b);
    var rr := Rotate180(r);
    forall i | 0 <= i < n
      ensures rr[i] == b[i]
    {
      forall j | 0 <= j < n
        ensures rr[i][j] == b[i][j]
      {
        RotateCellInvolution(Coord(i, j), n);
      }
    }
    if Filled(r) {
      forall i, j | 0 <= i < n && 0 <= j < n
        ensures IsPlayer(b[i][j])
      {
        assert b[i][j] == r[n - 1 - i][n - 1 - j];
      }
    }
  }

  // ---------------------------------------------------------------------------
  // Counting the cells of a board
  // ---------------------------------------------------------------------------

  /** The cells of row `i` of an n x n board. */
  function RowCells(i: int, n: nat): (r: set<Coord>)
    ensures |r| == n
    ensures forall c {:trigger c in r} :: c in r <==> c.row == i && 0 <= c.col < n
  {
    if n == 0 then {} else RowCells(i, n - 1) + {Coord(i, n - 1)}
  }

  /** The cells of the first `k` rows of an n x n board. */
  function RowsCells(k: nat, n: nat): (r: set<Coord>)
    ensures |r| == k * n
    ensures forall c {:trigger c in r} :: c in r <==> 0 <= c.row < k && 0 <= c.col < n
  {
    if k == 0 then {}
    else
      var prev := RowsCells(k - 1, n);
      var row := RowCells(k - 1, n);
      assert prev !! row;
      prev + row
  }

  lemma {:induction false} SubsetSize(a: set<Coord>, b: set<Coord>)
    requires a <= b
    ensures |a| <= |b|
  {
    if a != {} {
      var x :| x in a;
      SubsetSize(a - {x}, b - {x});
    }
  }

  /** A set of cells of an n x n board holds at most n * n of them, and
      holds every cell when it holds that many. */
  lemma BoardCellsBound(s: set<Coord>, n: nat)
    requires forall c {:trigger c in s} :: c in s ==> InBoard(c, n)
    ensures |s| <= n * n
    ensures |s| == n * n ==> forall c {:trigger c in s} :: InBoard(c, n) ==> c in s
  {
    var all := RowsCells(n, n);
    SubsetSize(s, all);
    if |s| == n * n {
      forall c | InBoard(c, n)
        ensures c in s
      {
        if c !in s {
          assert c in all;
          SubsetSize(s, all - {c});
        }
      }
    }
  }
}
