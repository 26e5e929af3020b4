/**
 Gale's algorithm: decide the winner of a completely filled Hex board by
 walking along the boundary between the two players' stones, starting in a
 corner of a bordered copy of the board.

 The bordered board (`Extend`) surrounds the n x n board with a ring whose
 top row and bottom row belong to the first player and whose side columns
 belong to the second player:

     2 1 1 1 1
     2 a b c 2
     2 d e f 2
     2 g h i 2
     1 1 1 1 2

 The walk keeps a window of four lattice positions (v1, v2, v3, v4), in which
 v2 and v3 are neighbouring cells on either side of the edge just crossed and
 v4 is the cell ahead. Rows may be -1: `HexMonteCarlo.py` indexes a Python
 list, so row -1 reads the bottom row of the bordered board.
 */
module BoundaryWalk {
  import opened HexBoard

  // ---------------------------------------------------------------------------
  // The bordered board
  // ---------------------------------------------------------------------------

  function Ones(k: nat): (r: seq<int>)
    ensures |r| == k && forall j :: 0 <= j < k ==> r[j] == 1
  {
    seq(k, _ => 1)
  }

  /** Surround the board with the border of stones that says who connects which sides. */
  function Extend(b: Board): (x: Board)
    ensures |x| == |b| + 2
    ensures |x[0]| == |b| + 2 && |x[|b| + 1]| == |b| + 2
    ensures forall i :: 1 <= i <= |b| ==> |x[i]| == |b[i - 1]| + 2
    // the top row is 2 1 ... 1 and the bottom row 1 ... 1 2
    ensures x[0] == [2] + Ones(|b| + 1)
    ensures x[|b| + 1] == Ones(|b| + 1) + [2]
    // the side columns of every board row belong to the second player
    ensures forall i :: 1 <= i <= |b| ==> x[i][0] == 2 && x[i][|b[i - 1]| + 1] == 2
    // the board sits inside, shifted by one row and one column
    ensures forall i, j :: 1 <= i <= |b| && 1 <= j <= |b[i - 1]| ==> x[i][j] == b[i - 1][j - 1]
  {
    var n := |b|;
    [[2] + Ones(n + 1)]
      + seq(n, i requires 0 <= i < n => [2] + b[i] + [2])
      + [Ones(n + 1) + [2]]
  }

  /** The shape of the bordered copy of an n x n board. */
  predicate Extended(x: Board, n: nat) {
    |x| == n + 2 && forall i :: 0 <= i < |x| ==> |x[i]| == n + 2
  }

  lemma ExtendShape(b: Board)
    requires IsSquare(b)
    ensures Extended(Extend(b), |b|)
    ensures Filled(b) ==> AllPlayers(Extend(b))
  {
    var x := Extend(b);
    var n := |b|;
    forall i | 0 <= i < n + 2
      ensures |x[i]| == n + 2
    {
    }
    if Filled(b) {
      forall i, j | 0 <= i < n + 2 && 0 <= j < n + 2
        ensures IsPlayer(x[i][j])
      {
        if 1 <= i <= n && 1 <= j <= n {
          assert x[i][j] == b[i - 1][j - 1];
        }
      }
    }
  }

  /** The positions the walk may look at: one ring beyond the board on every
      side, plus row -1 (Python reads it as the bottom row). */
  predicate OnBoard(v: Coord, n: int) {
    -1 <= v.row <= n + 1 && 0 <= v.col <= n + 1
  }

  /** The bordered-board value at a position, reading row -1 as the last row. */
  function At(x: Board, n: nat, v: Coord): int
    requires Extended(x, n) && OnBoard(v, n)
  {
    x[if v.row == -1 then n + 1 else v.row][v.col]
  }

  /** The positions that are cells of the board proper (not of the border). */
  predicate Interior(v: Coord, n: int) {
    0 < v.row < n + 1 && 0 < v.col < n + 1
  }

  /** Append the board cell of `v` to a chain when `v` is not a border cell. */
  function Record(chain: seq<Coord>, v: Coord, n: int): (r: seq<Coord>)
    ensures Interior(v, n) ==> r == chain + [Coord(v.row - 1, v.col - 1)]
    ensures !Interior(v, n) ==> r == chain
  {
    if Interior(v, n) then chain + [Coord(v.row - 1, v.col - 1)] else chain
  }

  // ---------------------------------------------------------------------------
  // The window and one step of the walk
  // ---------------------------------------------------------------------------

  datatype Window = Window(v1: Coord, v2: Coord, v3: Coord, v4: Coord)

  /** The first window: v2 and v3 are the two top-left cells of the bordered
      board, v4 the cell below v2, v1 the cell above v3 (row -1). */
  const Start: Window := Window(Coord(-1, 1), Coord(0, 0), Coord(0, 1), Coord(1, 0))

  /** The six neighbours of a cell on the board's lattice: along rows, along
      columns, and along the "/" diagonal, that is, offsets (0, +-1), (+-1, 0),
      (1, -1) and (-1, 1): the unit offsets other than (0, 0), (1, 1) and (-1, -1). */
  predicate Adjacent(a: Coord, b: Coord) {
    -1 <= b.row - a.row <= 1 && -1 <= b.col - a.col <= 1 && b.row - a.row != b.col - a.col
  }

  /** The window is two triangles of mutual neighbours, (v1, v2, v3) and
      (v2, v3, v4), glued along the edge v2-v3. */
  predicate Rhombus(w: Window) {
    && Adjacent(w.v2, w.v3) && Adjacent(w.v2, w.v4) && Adjacent(w.v3, w.v4)
    && w.v1.row + w.v4.row == w.v2.row + w.v3.row
    && w.v1.col + w.v4.col == w.v2.col + w.v3.col
  }

  /** v2 sits on a second-player stone and v3 on a first-player stone. */
  predicate Coloured(x: Board, n: nat, w: Window)
    requires Extended(x, n)
  {
    OnBoard(w.v2, n) && OnBoard(w.v3, n) && At(x, n, w.v2) == 2 && At(x, n, w.v3) == 1
  }

  lemma StartColoured(b: Board)
    requires IsSquare(b)
    ensures Extended(Extend(b), |b|) && Coloured(Extend(b), |b|, Start) && Rhombus(Start)
  {
    var x := Extend(b);
    ExtendShape(b);
    assert At(x, |b|, Start.v2) == 2;
    assert At(x, |b|, Start.v3) == 1;
  }

  /** The position `p + (p - q)`: `q` reflected through `p`. */
  function Mirror(p: Coord, q: Coord): Coord {
    Coord(p.row + (p.row - q.row), p.col + (p.col - q.col))
  }

  /** The window after a left turn: v2 stays, v4 becomes the new v3. */
  function TurnLeft(w: Window): Window {
    Window(w.v3, w.v2, w.v4, Mirror(w.v2, w.v1))
  }

  /** The window after a right turn: v3 stays, v4 becomes the new v2. */
  function TurnRight(w: Window): Window {
    Window(w.v2, w.v4, w.v3, Mirror(w.v3, w.v1))
  }

  /** One step of the walk from a window whose v4 is still on the board. If
      v4 matches v3 the walk turns left, keeping v2; if it matches v2 it turns
      right, keeping v3; otherwise no turn is defined. */
  function Step(x: Board, n: nat, w: Window): Option<Window>
    requires Extended(x, n) && OnBoard(w.v2, n) && OnBoard(w.v3, n) && OnBoard(w.v4, n)
  {
    if At(x, n, w.v4) == At(x, n, w.v3) then
      Some(TurnLeft(w))
    else if At(x, n, w.v4) == At(x, n, w.v2) then
      Some(TurnRight(w))
    else
      None
  }

  /** What one step does: the new window keeps one cell of the edge and takes
      v4 as the other; it keeps the colour invariant and the window's shape;
      a turn exists exactly when v4 matches v2 or v3, so always on a board of
      ones and twos. */
  lemma StepTurns(x: Board, n: nat, w: Window)
    requires Extended(x, n) && OnBoard(w.v2, n) && OnBoard(w.v3, n) && OnBoard(w.v4, n)
    ensures Step(x, n, w).Some? ==>
      var next := Step(x, n, w).value;
      || (next.v2 == w.v2 && next.v3 == w.v4 && At(x, n, w.v4) == At(x, n, w.v3))
      || (next.v2 == w.v4 && next.v3 == w.v3 && At(x, n, w.v4) == At(x, n, w.v2))
    ensures Step(x, n, w).Some? && Coloured(x, n, w) ==> Coloured(x, n, Step(x, n, w).value)
    ensures Step(x, n, w).Some? && Rhombus(w) ==> Rhombus(Step(x, n, w).value)
    ensures Step(x, n, w).Some? <==> At(x, n, w.v4) == At(x, n, w.v3) || At(x, n, w.v4) == At(x, n, w.v2)
    ensures Coloured(x, n, w) && IsPlayer(At(x, n, w.v4)) ==> Step(x, n, w).Some?
  {
  }

  datatype Option<T> = None | Some(value: T)

  // ---------------------------------------------------------------------------
  // The walk
  // ---------------------------------------------------------------------------

  /** The board cell `c` lies on the board and holds the stone `v`. */
  predicate Holds(x: Board, n: nat, c: Coord, v: int)
    requires Extended(x, n)
  {
    InBoard(c, n) && x[c.row + 1][c.col + 1] == v
  }

  /** Every recorded cell lies on the board and holds the stone `v`. */
  predicate ChainOf(x: Board, n: nat, chain: seq<Coord>, v: int)
    requires Extended(x, n)
  {
    forall k :: 0 <= k < |chain| ==> Holds(x, n, chain[k], v)
  }

  /** Recording a cell that holds `v` keeps a chain of `v`s. */
  lemma RecordKeeps(x: Board, n: nat, chain: seq<Coord>, p: Coord, v: int)
    requires Extended(x, n) && ChainOf(x, n, chain, v) && OnBoard(p, n) && At(x, n, p) == v
    ensures ChainOf(x, n, Record(chain, p, n), v)
  {
  }

  /** What holds of the walk's state before and after every step. */
  predicate WalkInv(x: Board, n: nat, w: Window, v2Chain: seq<Coord>, v3Chain: seq<Coord>) {
    && Extended(x, n)
    && Coloured(x, n, w)
    && Rhombus(w)
    && ChainOf(x, n, v2Chain, 2)
    && ChainOf(x, n, v3Chain, 1)
  }

  /** The window's edge cells can be read off the bordered board. */
  predicate Readable(x: Board, n: nat, w: Window) {
    Extended(x, n) && OnBoard(w.v2, n) && OnBoard(w.v3, n)
  }

  predicate AllPlayers(x: Board) {
    forall i, j :: 0 <= i < |x| && 0 <= j < |x[i]| ==> IsPlayer(x[i][j])
  }

  /** Where the walk left the board, and the cells it recorded on the way. */
  datatype Exit = Exit(last: Window, v2Chain: seq<Coord>, v3Chain: seq<Coord>)

  /** The main loop: while v4 is on the board, record v2 and v3 when they are
      board cells, then step. `fuel` bounds the number of steps. */
  function Walk(x: Board, n: nat, w: Window, v2Chain: seq<Coord>, v3Chain: seq<Coord>, fuel: nat): (r: Result<Exit>)
    requires Readable(x, n, w)
    ensures r.Ok? ==> !OnBoard(r.value.last.v4, n) && OnBoard(r.value.last.v2, n) && OnBoard(r.value.last.v3, n)
    ensures r.Err? ==> r.error == NoDecision || r.error == OutOfFuel
    decreases fuel
  {
    if !OnBoard(w.v4, n) then
      Ok(Exit(w, v2Chain, v3Chain))
    else if fuel == 0 then
      Err(OutOfFuel)
    else
      var c2 := Record(v2Chain, w.v2, n);
      var c3 := Record(v3Chain, w.v3, n);
      match Step(x, n, w)
      case None => Err(NoDecision)
      case Some(next) => Walk(x, n, next, c2, c3, fuel - 1)
  }

  /** Every step keeps the colour invariant, the window's shape and the
      colours of the recorded chains; so the walk ends in a state that has them. */
  lemma {:induction false} WalkKeeps(x: Board, n: nat, w: Window, v2Chain: seq<Coord>, v3Chain: seq<Coord>, fuel: nat)
    requires WalkInv(x, n, w, v2Chain, v3Chain)
    ensures Walk(x, n, w, v2Chain, v3Chain, fuel).Ok? ==>
      var e := Walk(x, n, w, v2Chain, v3Chain, fuel).value;
      WalkInv(x, n, e.last, e.v2Chain, e.v3Chain)
    decreases fuel
  {
    if OnBoard(w.v4, n) && fuel > 0 {
      StepTurns(x, n, w);
      match Step(x, n, w)
      case None =>
      case Some(next) =>
        RecordKeeps(x, n, v2Chain, w.v2, 2);
        RecordKeeps(x, n, v3Chain, w.v3, 1);
        WalkKeeps(x, n, next, Record(v2Chain, w.v2, n), Record(v3Chain, w.v3, n), fuel - 1);
    }
  }

  /** On a bordered board of ones and twos, from a window that keeps the colour
      invariant, every step is decided: the walk never stops for want of a turn. */
  lemma {:induction false} WalkDecided(x: Board, n: nat, w: Window, v2Chain: seq<Coord>, v3Chain: seq<Coord>, fuel: nat)
    requires Readable(x, n, w)
    ensures AllPlayers(x) && Coloured(x, n, w) ==> Walk(x, n, w, v2Chain, v3Chain, fuel) != Err(NoDecision)
    decreases fuel
  {
    if AllPlayers(x) && Coloured(x, n, w) && OnBoard(w.v4, n) && fuel > 0 {
      StepTurns(x, n, w);
      var next := Step(x, n, w).value;
      WalkDecided(x, n, next, Record(v2Chain, w.v2, n), Record(v3Chain, w.v3, n), fuel - 1);
    }
  }

  /** The walk turns left when v4 matches v3. */
  lemma StepLeft(x: Board, n: nat, w: Window)
    requires Extended(x, n) && OnBoard(w.v2, n) && OnBoard(w.v3, n) && OnBoard(w.v4, n)
    requires At(x, n, w.v4) == At(x, n, w.v3)
    ensures Step(x, n, w) == Some(TurnLeft(w))
  {
  }

  /** The walk turns right when v4 matches v2 but not v3. */
  lemma StepRight(x: Board, n: nat, w: Window)
    requires Extended(x, n) && OnBoard(w.v2, n) && OnBoard(w.v3, n) && OnBoard(w.v4, n)
    requires At(x, n, w.v4) != At(x, n, w.v3) && At(x, n, w.v4) == At(x, n, w.v2)
    ensures Step(x, n, w) == Some(TurnRight(w))
  {
  }

  /** One step of `Walk`, unfolded: record the edge's cells, then go on from the next window. */
  lemma WalkStep(x: Board, n: nat, w: Window, next: Window, v2Chain: seq<Coord>, v3Chain: seq<Coord>, fuel: nat)
    requires Readable(x, n, w) && OnBoard(w.v4, n) && fuel > 0
    requires Step(x, n, w) == Some(next)
    ensures Readable(x, n, next)
    ensures Walk(x, n, w, v2Chain, v3Chain, fuel)
         == Walk(x, n, next, Record(v2Chain, w.v2, n), Record(v3Chain, w.v3, n), fuel - 1)
  {
  }

  /** The number of steps the model allows a walk on an n x n board: six
      neighbours for each of the (n + 3) * (n + 2) positions `OnBoard` accepts. */
  function StepBound(n: nat): nat {
    6 * (n + 3) * (n + 2)
  }

  // ---------------------------------------------------------------------------
  // The exit rule and the solver
  // ---------------------------------------------------------------------------

  /** The outcome of a solved board: the winner and the cells along the traced boundary. */
  datatype Solution = Solution(winner: int, chain: set<Coord>)

  /** Leaving through column -1 (bottom-left) means the first player won, and
      the first player's cells v3 form the chain; leaving through row 0
      (top-right) means the second player won with the cells v2; any other
      exit is an error. */
  function Verdict(x: Board, n: nat, e: Exit): (r: Result<Solution>)
    requires WalkInv(x, n, e.last, e.v2Chain, e.v3Chain)
    ensures r.Ok? && r.value.winner == 1 <==> e.last.v4.col == -1
    ensures r.Ok? && r.value.winner == 2 <==> e.last.v4.col != -1 && e.last.v4.row == 0
    ensures r.Err? <==> e.last.v4.col != -1 && e.last.v4.row != 0
    ensures r.Err? ==> r.error == BadExit
    // the first player's chain is the recorded v3 cells, the second player's the v2 cells
    ensures r.Ok? && r.value.winner == 1 ==> r.value.chain == Cells(e.v3Chain)
    ensures r.Ok? && r.value.winner == 2 ==> r.value.chain == Cells(e.v2Chain)
    ensures r.Ok? ==> forall c {:trigger c in r.value.chain} :: c in r.value.chain ==>
      InBoard(c, n) && x[c.row + 1][c.col + 1] == r.value.winner
  {
    if e.last.v4.col == -1 then
      Ok(Solution(1, Cells(e.v3Chain)))
    else if e.last.v4.row == 0 then
      Ok(Solution(2, Cells(e.v2Chain)))
    else
      Err(BadExit)
  }

  /** Gale's algorithm on a square board. */
  function Gale(b: Board): (r: Result<Solution>)
    requires IsSquare(b)
    ensures |b| == 0 ==> r == Err(EmptyBoard)
    ensures r.Ok? ==> IsPlayer(r.value.winner)
    // every cell of the chain is a board cell holding the winner's stone
    ensures r.Ok? ==> forall c {:trigger c in r.value.chain} :: c in r.value.chain ==>
      InBoard(c, |b|) && b[c.row][c.col] == r.value.winner
    // on a completely filled board no step is ever undecided
    ensures Filled(b) ==> r != Err(NoDecision)
  {
    if |b| == 0 then
      Err(EmptyBoard)
    else
      var n := |b|;
      var x := Extend(b);
      StartColoured(b);
      ExtendShape(b);
      WalkKeeps(x, n, Start, [], [], StepBound(n));
      WalkDecided(x, n, Start, [], [], StepBound(n));
      match Walk(x, n, Start, [], [], StepBound(n))
      case Err(e) => Err(e)
      case Ok(e) =>
        var r := Verdict(x, n, e);
        assert r.Ok? ==> forall c {:trigger c in r.value.chain} :: c in r.value.chain ==> b[c.row][c.col] == x[c.row + 1][c.col + 1];
        r
  }

  /** Once the walk's exit is known, the solver's answer follows from the exit rule. */
  lemma GaleWalk(b: Board, e: Exit)
    requires IsSquare(b) && |b| > 0
    requires Walk(Extend(b), |b|, Start, [], [], StepBound(|b|)) == Ok(e)
    ensures e.last.v4.col == -1 ==> Gale(b) == Ok(Solution(1, Cells(e.v3Chain)))
    ensures e.last.v4.col != -1 && e.last.v4.row == 0 ==> Gale(b) == Ok(Solution(2, Cells(e.v2Chain)))
    ensures e.last.v4.col != -1 && e.last.v4.row != 0 ==> Gale(b) == Err(BadExit)
  {
    StartColoured(b);
    WalkKeeps(Extend(b), |b|, Start, [], [], StepBound(|b|));
  }
}
