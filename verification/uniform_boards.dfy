/**
 The walk on the two boards `HexMonteCarlo.py` gives as examples, for
 every board size: on the all-ones board the first player wins and the chain
 is the left column; on the all-twos board the second player wins and the
 chain is the top row.

 On the all-ones board the walk runs down the left border, two steps per
 row, through the windows `DownLeft(k)`; on the all-twos board it runs along
 the top border through the windows `AlongTop(k)`.
 */
module UniformBoards {
  import opened HexBoard
  import opened BoundaryWalk

  /** The cells of column 0 from row `lo` up to row `n - 1`. */
  function LeftColumn(lo: int, n: int): (r: set<Coord>)
    ensures forall c {:trigger c in r} :: c in r <==> c.col == 0 && lo <= c.row < n
    decreases n - lo
  {
    if lo >= n then {} else {Coord(lo, 0)} + LeftColumn(lo + 1, n)
  }

  /** The cells of row 0 from column `lo` up to column `n - 1`. */
  function TopRow(lo: int, n: int): (r: set<Coord>)
    ensures forall c {:trigger c in r} :: c in r <==> c.row == 0 && lo <= c.col < n
    decreases n - lo
  {
    if lo >= n then {} else {Coord(0, lo)} + TopRow(lo + 1, n)
  }

  /** Appending a cell to a recorded chain adds it to the chain's set. */
  lemma CellsAppend(s: seq<Coord>, c: Coord)
    ensures Cells(s + [c]) == Cells(s) + {c}
  {
  }

  /** The window with the edge between the cells (k, 0) and (k, 1) of the
      bordered board, facing down; the walk starts in `DownLeft(0)`. */
  function DownLeft(k: int): Window {
    Window(Coord(k - 1, 1), Coord(k, 0), Coord(k, 1), Coord(k + 1, 0))
  }

  /** The window after a right turn from `DownLeft(k)`. */
  function DownMid(k: int): Window {
    Window(Coord(k, 0), Coord(k + 1, 0), Coord(k, 1), Coord(k + 1, 1))
  }

  lemma StartIsDownLeft()
    ensures Start == DownLeft(0)
  {
  }

  /** Recording a cell twice adds it to the chain's set once. */
  lemma CellsTwice(s: seq<Coord>, c: Coord)
    ensures Cells(s + [c, c]) == Cells(s) + {c}
  {
  }

  // ---------------------------------------------------------------------------
  // The all-ones board
  // ---------------------------------------------------------------------------

  /** The bordered values the walk reads on the all-ones board. */
  predicate OnesBorder(x: Board, n: nat) {
    && Extended(x, n)
    && (forall i :: 0 <= i <= n ==> x[i][0] == 2)
    && (forall i :: 0 <= i <= n ==> x[i][1] == 1)
    && x[n + 1][0] == 1
  }

  lemma OnesBorderHolds(n: nat)
    requires n >= 1
    ensures OnesBorder(Extend(Uniform(n, 1)), n)
  {
    var b := Uniform(n, 1);
    var x := Extend(b);
    ExtendShape(b);
    forall i | 1 <= i <= n
      ensures x[i][1] == 1
    {
      assert x[i][1] == b[i - 1][0];
    }
  }

  /** Above the last row, a right turn and a left turn move the window one row
      down; the cell (k, 1) of the bordered board is seen twice. */
  lemma OnesTurns(x: Board, n: nat, k: int, v2Chain: seq<Coord>, v3Chain: seq<Coord>, fuel: nat)
    requires OnesBorder(x, n) && 0 <= k < n && fuel >= 2
    ensures Walk(x, n, DownLeft(k), v2Chain, v3Chain, fuel)
         == Walk(x, n, DownLeft(k + 1), v2Chain, Record(Record(v3Chain, Coord(k, 1), n), Coord(k, 1), n), fuel - 2)
  {
    var w := DownLeft(k);
    StepRight(x, n, w);
    WalkStep(x, n, w, DownMid(k), v2Chain, v3Chain, fuel);
    StepLeft(x, n, DownMid(k));
    WalkStep(x, n, DownMid(k), DownLeft(k + 1), v2Chain, Record(v3Chain, w.v3, n), fuel - 1);
  }

  /** From the start the walk reaches `DownLeft(1)` without recording a board cell. */
  lemma OnesEntry(x: Board, n: nat, fuel: nat)
    requires OnesBorder(x, n) && n >= 1 && fuel >= 2
    ensures Walk(x, n, DownLeft(0), [], [], fuel) == Walk(x, n, DownLeft(1), [], [], fuel - 2)
  {
    OnesTurns(x, n, 0, [], [], fuel);
    assert Record(Record([], Coord(0, 1), n), Coord(0, 1), n) == [];
  }

  /** In a middle row the first player's board cell (k - 1, 0) is recorded twice. */
  lemma OnesRow(x: Board, n: nat, k: int, v2Chain: seq<Coord>, v3Chain: seq<Coord>, fuel: nat)
    requires OnesBorder(x, n) && 1 <= k < n && fuel >= 2
    ensures Walk(x, n, DownLeft(k), v2Chain, v3Chain, fuel)
         == Walk(x, n, DownLeft(k + 1), v2Chain, v3Chain + [Coord(k - 1, 0), Coord(k - 1, 0)], fuel - 2)
  {
    OnesTurns(x, n, k, v2Chain, v3Chain, fuel);
    assert Record(Record(v3Chain, Coord(k, 1), n), Coord(k, 1), n) == v3Chain + [Coord(k - 1, 0), Coord(k - 1, 0)];
  }

  /** In the last row the walk turns left below the bottom-left cell and leaves. */
  lemma OnesLast(x: Board, n: nat, v2Chain: seq<Coord>, v3Chain: seq<Coord>, fuel: nat)
    requires OnesBorder(x, n) && n >= 1 && fuel >= 1
    ensures Walk(x, n, DownLeft(n), v2Chain, v3Chain, fuel)
         == Ok(Exit(TurnLeft(DownLeft(n)), v2Chain, v3Chain + [Coord(n - 1, 0)]))
    ensures TurnLeft(DownLeft(n)).v4 == Coord(n + 1, -1)
  {
    var w := DownLeft(n);
    StepLeft(x, n, w);
    WalkStep(x, n, w, TurnLeft(w), v2Chain, v3Chain, fuel);
  }

  /** From row k down, the walk leaves at the bottom-left corner having
      recorded the rest of the left column for the first player. */
  lemma {:induction false} OnesFrom(x: Board, n: nat, k: int, v2Chain: seq<Coord>, v3Chain: seq<Coord>, fuel: nat)
      returns (e: Exit)
    requires OnesBorder(x, n)
    requires 1 <= k <= n && fuel >= 2 * (n - k) + 1
    ensures Walk(x, n, DownLeft(k), v2Chain, v3Chain, fuel) == Ok(e)
    ensures e.last.v4 == Coord(n + 1, -1)
    ensures Cells(e.v3Chain) == Cells(v3Chain) + LeftColumn(k - 1, n)
    decreases n - k
  {
    if k == n {
      OnesLast(x, n, v2Chain, v3Chain, fuel);
      e := Exit(TurnLeft(DownLeft(n)), v2Chain, v3Chain + [Coord(n - 1, 0)]);
      CellsAppend(v3Chain, Coord(n - 1, 0));
    } else {
      OnesRow(x, n, k, v2Chain, v3Chain, fuel);
      e := OnesFrom(x, n, k + 1, v2Chain, v3Chain + [Coord(k - 1, 0), Coord(k - 1, 0)], fuel - 2);
      CellsTwice(v3Chain, Coord(k - 1, 0));
    }
  }

  /** The whole walk on the bordered all-ones board. */
  lemma OnesWalk(x: Board, n: nat, fuel: nat) returns (e: Exit)
    requires OnesBorder(x, n) && n >= 1 && fuel >= 2 * n + 1
    ensures Walk(x, n, DownLeft(0), [], [], fuel) == Ok(e)
    ensures e.last.v4 == Coord(n + 1, -1)
    ensures Cells(e.v3Chain) == LeftColumn(0, n)
  {
    OnesEntry(x, n, fuel);
    e := OnesFrom(x, n, 1, [], [], fuel - 2);
    assert Cells([]) == {};
  }

  /** On the all-ones board the first player wins, along the left column. */
  lemma AllOnesFirstWins(n: nat)
    requires n >= 1
    ensures Gale(Uniform(n, 1)) == Ok(Solution(1, LeftColumn(0, n)))
  {
    var b := Uniform(n, 1);
    OnesBorderHolds(n);
    var fuel := StepBound(n);
    assert fuel >= 2 * n + 1 by {
      assert (n + 3) * (n + 2) >= n + 2;
    }
    var e := OnesWalk(Extend(b), n, fuel);
    StartIsDownLeft();
    GaleWalk(b, e);
  }

  // ---------------------------------------------------------------------------
  // The all-twos board
  // ---------------------------------------------------------------------------

  /** The bordered values the walk reads on the all-twos board. */
  predicate TwosBorder(x: Board, n: nat) {
    && Extended(x, n)
    && x[0][0] == 2
    && (forall j :: 1 <= j <= n + 1 ==> x[0][j] == 1)
    && (forall j :: 0 <= j <= n + 1 ==> x[1][j] == 2)
  }

  lemma TwosBorderHolds(n: nat)
    requires n >= 1
    ensures TwosBorder(Extend(Uniform(n, 2)), n)
  {
    var b := Uniform(n, 2);
    var x := Extend(b);
    ExtendShape(b);
    forall j | 1 <= j <= n
      ensures x[1][j] == 2
    {
      assert x[1][j] == b[0][j - 1];
    }
  }

  /** The window with the edge between the cells (1, k) and (0, k) of the
      bordered board, facing right. */
  function AlongTop(k: int): Window {
    Window(Coord(1, k - 1), Coord(1, k), Coord(0, k), Coord(0, k + 1))
  }

  /** The window after a left turn from `AlongTop(k)`. */
  function TopMid(k: int): Window {
    Window(Coord(0, k), Coord(1, k), Coord(0, k + 1), Coord(1, k + 1))
  }

  /** Two right turns from `DownLeft(k)` when the cells (k, 0), (k + 1, 0) and
      (k + 1, 1) are the second player's and (k, 1) the first player's; from
      the start this brings the walk to `AlongTop(1)`. */
  lemma TwoRights(x: Board, n: nat, k: int, v2Chain: seq<Coord>, v3Chain: seq<Coord>, fuel: nat)
    requires Extended(x, n) && 0 <= k < n && fuel >= 2
    requires x[k][0] == 2 && x[k + 1][0] == 2 && x[k + 1][1] == 2 && x[k][1] == 1
    ensures Walk(x, n, DownLeft(k), v2Chain, v3Chain, fuel)
         == Walk(x, n, Window(Coord(k + 1, 0), Coord(k + 1, 1), Coord(k, 1), Coord(k, 2)),
                 Record(Record(v2Chain, Coord(k, 0), n), Coord(k + 1, 0), n),
                 Record(Record(v3Chain, Coord(k, 1), n), Coord(k, 1), n), fuel - 2)
  {
    var w := DownLeft(k);
    StepRight(x, n, w);
    WalkStep(x, n, w, DownMid(k), v2Chain, v3Chain, fuel);
    StepRight(x, n, DownMid(k));
    WalkStep(x, n, DownMid(k), TurnRight(DownMid(k)), Record(v2Chain, w.v2, n), Record(v3Chain, w.v3, n), fuel - 1);
  }

  /** Along the top, a left turn and a right turn move the window one column
      right; the second player's board cell (0, k - 1) is recorded twice. */
  lemma TwosColumn(x: Board, n: nat, k: int, v2Chain: seq<Coord>, v3Chain: seq<Coord>, fuel: nat)
    requires TwosBorder(x, n) && 1 <= k <= n && fuel >= 2
    ensures Walk(x, n, AlongTop(k), v2Chain, v3Chain, fuel)
         == Walk(x, n, AlongTop(k + 1), v2Chain + [Coord(0, k - 1), Coord(0, k - 1)], v3Chain, fuel - 2)
  {
    var w := AlongTop(k);
    StepLeft(x, n, w);
    WalkStep(x, n, w, TopMid(k), v2Chain, v3Chain, fuel);
    StepRight(x, n, TopMid(k));
    WalkStep(x, n, TopMid(k), AlongTop(k + 1), Record(v2Chain, w.v2, n), v3Chain, fuel - 1);
    assert Record(Record(v2Chain, Coord(1, k), n), Coord(1, k), n) == v2Chain + [Coord(0, k - 1), Coord(0, k - 1)];
  }

  /** From column k on, the walk leaves past the top-right corner having
      recorded the rest of the top row for the second player. */
  lemma {:induction false} TwosFrom(x: Board, n: nat, k: int, v2Chain: seq<Coord>, v3Chain: seq<Coord>, fuel: nat)
      returns (e: Exit)
    requires TwosBorder(x, n)
    requires 1 <= k <= n + 1 && fuel >= 2 * (n + 1 - k)
    ensures Walk(x, n, AlongTop(k), v2Chain, v3Chain, fuel) == Ok(e)
    ensures e.last.v4 == Coord(0, n + 2)
    ensures Cells(e.v2Chain) == Cells(v2Chain) + TopRow(k - 1, n)
    decreases n + 1 - k
  {
    if k == n + 1 {
      e := Exit(AlongTop(k), v2Chain, v3Chain);
      assert TopRow(k - 1, n) == {};
    } else {
      TwosColumn(x, n, k, v2Chain, v3Chain, fuel);
      e := TwosFrom(x, n, k + 1, v2Chain + [Coord(0, k - 1), Coord(0, k - 1)], v3Chain, fuel - 2);
      CellsTwice(v2Chain, Coord(0, k - 1));
    }
  }

  /** From the start, two right turns bring the walk to `AlongTop(1)` without
      recording a board cell. */
  lemma TwosEntry(x: Board, n: nat, fuel: nat)
    requires TwosBorder(x, n) && n >= 1 && fuel >= 2
    ensures Walk(x, n, DownLeft(0), [], [], fuel) == Walk(x, n, AlongTop(1), [], [], fuel - 2)
  {
    TwoRights(x, n, 0, [], [], fuel);
    assert Record(Record([], Coord(0, 0), n), Coord(1, 0), n) == [];
    assert Record(Record([], Coord(0, 1), n), Coord(0, 1), n) == [];
    assert Window(Coord(1, 0), Coord(1, 1), Coord(0, 1), Coord(0, 2)) == AlongTop(1);
  }

  /** The whole walk on the bordered all-twos board. */
  lemma TwosWalk(x: Board, n: nat, fuel: nat) returns (e: Exit)
    requires TwosBorder(x, n) && n >= 1 && fuel >= 2 * n + 2
    ensures Walk(x, n, DownLeft(0), [], [], fuel) == Ok(e)
    ensures e.last.v4 == Coord(0, n + 2)
    ensures Cells(e.v2Chain) == TopRow(0, n)
  {
    TwosEntry(x, n, fuel);
    e := TwosFrom(x, n, 1, [], [], fuel - 2);
    assert Cells([]) == {};
  }

  /** On the all-twos board the second player wins, along the top row. */
  lemma AllTwosSecondWins(n: nat)
    requires n >= 1
    ensures Gale(Uniform(n, 2)) == Ok(Solution(2, TopRow(0, n)))
  {
    var b := Uniform(n, 2);
    TwosBorderHolds(n);
    var fuel := StepBound(n);
    assert fuel >= 2 * n + 2 by {
      assert (n + 3) * (n + 2) >= n + 2;
    }
    var e := TwosWalk(Extend(b), n, fuel);
    StartIsDownLeft();
    GaleWalk(b, e);
  }
}
