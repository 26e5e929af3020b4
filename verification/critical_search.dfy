/**
 One round of the Monte-Carlo search for critical cells.

 Every trial takes a random filled board, overwrites the cells fixed in
 earlier rounds, and solves the board twice: as it is, and turned by 180
 degrees. A cell is critical in the trial when it lies on the winning chain
 of both solutions (the second chain mapped back to the board's own
 coordinates). The round counts, for every cell, the trials in which it was
 critical; fixed cells always count zero. The random boards are inputs.
 */
module CriticalSearch {
  import opened HexBoard
  import opened BoundaryWalk

  // ---------------------------------------------------------------------------
  // Fixed cells
  // ---------------------------------------------------------------------------

  /** A cell chosen in an earlier round, and the stone it was fixed to. */
  datatype Fixed = Fixed(at: Coord, value: int)

  predicate FixedInBoard(fixed: seq<Fixed>, n: int) {
    forall k :: 0 <= k < |fixed| ==> InBoard(fixed[k].at, n)
  }

  predicate FixedPlayers(fixed: seq<Fixed>) {
    forall k :: 0 <= k < |fixed| ==> IsPlayer(fixed[k].value)
  }

  predicate IsFixed(fixed: seq<Fixed>, c: Coord) {
    exists k :: 0 <= k < |fixed| && fixed[k].at == c
  }

  /** No cell is fixed twice. */
  predicate Distinct(fixed: seq<Fixed>) {
    forall k, l :: 0 <= k < l < |fixed| ==> fixed[k].at != fixed[l].at
  }

  /** The stone the fixed list puts on cell `c`: that of its last entry for `c`. */
  function FixedValue(fixed: seq<Fixed>, c: Coord): (r: Option<int>)
    ensures r.Some? ==> exists k :: 0 <= k < |fixed| && fixed[k] == Fixed(c, r.value)
    ensures r.None? <==> !IsFixed(fixed, c)
    decreases |fixed|
  {
    if |fixed| == 0 then None
    else if fixed[|fixed| - 1].at == c then Some(fixed[|fixed| - 1].value)
    else
      var r := FixedValue(fixed[..|fixed| - 1], c);
      assert forall k :: 0 <= k < |fixed| - 1 ==> fixed[..|fixed| - 1][k] == fixed[k];
      r
  }

  /** An entry that no later entry overrides decides the stone of its cell. */
  lemma {:induction false} LastEntryWins(fixed: seq<Fixed>, k: int)
    requires 0 <= k < |fixed|
    requires forall l :: k < l < |fixed| ==> fixed[l].at != fixed[k].at
    ensures FixedValue(fixed, fixed[k].at) == Some(fixed[k].value)
    decreases |fixed|
  {
    if k < |fixed| - 1 {
      var init := fixed[..|fixed| - 1];
      assert init[k] == fixed[k];
      assert forall l :: k < l < |init| ==> init[l] == fixed[l];
      LastEntryWins(init, k);
    }
  }

  /** The cells of a fixed list. */
  function FixedCells(fixed: seq<Fixed>): (r: set<Coord>)
    ensures forall c {:trigger c in r} :: c in r <==> IsFixed(fixed, c)
    decreases |fixed|
  {
    if |fixed| == 0 then {}
    else
      var init := fixed[..|fixed| - 1];
      assert forall k :: 0 <= k < |init| ==> init[k] == fixed[k];
      FixedCells(init) + {fixed[|fixed| - 1].at}
  }

  /** A list that fixes no cell twice fixes as many cells as it has entries. */
  lemma {:induction false} FixedCellsCount(fixed: seq<Fixed>)
    requires Distinct(fixed)
    ensures |FixedCells(fixed)| == |fixed|
    decreases |fixed|
  {
    if |fixed| > 0 {
      var init := fixed[..|fixed| - 1];
      assert Distinct(init);
      FixedCellsCount(init);
      assert fixed[|fixed| - 1].at !in FixedCells(init);
    }
  }

  // ---------------------------------------------------------------------------
  // Writing into a board
  // ---------------------------------------------------------------------------

  /** The value of cell `c` of a board or a grid of counts. */
  function Cell(g: seq<seq<int>>, c: Coord): int
    requires 0 <= c.row < |g| && 0 <= c.col < |g[c.row]|
  {
    g[c.row][c.col]
  }

  /** The board with cell `c` set to `v`. */
  function Put(b: Board, c: Coord, v: int): (r: Board)
    requires IsSquare(b) && InBoard(c, |b|)
    ensures |r| == |b| && IsSquare(r)
    ensures forall d {:trigger Cell(r, d)} :: InBoard(d, |b|) ==> Cell(r, d) == if d == c then v else Cell(b, d)
  {
    b[c.row := b[c.row][c.col := v]]
  }

  /** The board with every fixed cell set to its fixed stone, in list order. */
  function Overlay(b: Board, fixed: seq<Fixed>): (r: Board)
    requires IsSquare(b) && FixedInBoard(fixed, |b|)
    ensures |r| == |b| && IsSquare(r)
    // a fixed cell holds the stone of its last entry; every other cell is unchanged
    ensures forall c {:trigger Cell(r, c)} :: InBoard(c, |b|) ==>
      Cell(r, c) == match FixedValue(fixed, c) case Some(v) => v case None => Cell(b, c)
    decreases |fixed|
  {
    if |fixed| == 0 then b
    else
      var last := fixed[|fixed| - 1];
      Put(Overlay(b, fixed[..|fixed| - 1]), last.at, last.value)
  }

  /** Fixing cells to players' stones keeps a filled board filled. */
  lemma OverlayFilled(b: Board, fixed: seq<Fixed>)
    requires IsSquare(b) && FixedInBoard(fixed, |b|)
    ensures Filled(b) && FixedPlayers(fixed) ==> Filled(Overlay(b, fixed))
  {
    if Filled(b) && FixedPlayers(fixed) {
      var r := Overlay(b, fixed);
      forall i, j | 0 <= i < |b| && 0 <= j < |b|
        ensures IsPlayer(r[i][j])
      {
        var c := Coord(i, j);
        assert Cell(r, c) == r[i][j] && Cell(b, c) == b[i][j];
      }
    }
  }

  // ---------------------------------------------------------------------------
  // One trial
  // ---------------------------------------------------------------------------

  /** A chain of the rotated board, mapped back to the board's own coordinates. */
  function RotateBack(chain: set<Coord>, n: int): (r: set<Coord>)
    ensures forall c {:trigger c in r} :: c in r <==> RotateCell(c, n) in chain
  {
    var r := set c | c in chain :: RotateCell(c, n);
    assert forall c :: RotateCell(c, n) in chain ==> RotateCell(RotateCell(c, n), n) in r;
    r
  }

  /** The winner of the board, the winner of the board turned by 180 degrees,
      and the cells on both winning chains. */
  datatype TrialOutcome = TrialOutcome(winner: int, rotWinner: int, critical: set<Coord>)

  /** One trial on the random board `b`, with the fixed cells overlaid. */
  function Trial(n: nat, fixed: seq<Fixed>, b: Board): (r: Result<TrialOutcome>)
    requires |b| == n && IsSquare(b) && FixedInBoard(fixed, n)
    ensures n == 0 ==> r == Err(EmptyBoard)
    ensures r.Ok? ==> IsPlayer(r.value.winner) && IsPlayer(r.value.rotWinner)
    // a critical cell is a board cell holding the stone of both winners
    ensures r.Ok? ==> forall c {:trigger c in r.value.critical} :: c in r.value.critical ==>
      InBoard(c, n) && Cell(Overlay(b, fixed), c) == r.value.winner == r.value.rotWinner
    // a random filled board with cells fixed to players' stones is always decided
    ensures Filled(b) && FixedPlayers(fixed) ==> r != Err(NoDecision)
  {
    var p := Overlay(b, fixed);
    OverlayFilled(b, fixed);
    Rotate180Involution(p);
    match Gale(p)
    case Err(e) => Err(e)
    case Ok(s) =>
      match Gale(Rotate180(p))
      case Err(e) => Err(e)
      case Ok(t) =>
        BothChains(p, s, t);
        Ok(TrialOutcome(s.winner, t.winner, s.chain * RotateBack(t.chain, n)))
  }

  /** A trial is the solver run on the overlaid board and on its rotation: it
      succeeds exactly when both solves do, fails with the error of the first
      solve that fails, reports both winners, and its critical cells are the
      cells on the first chain whose rotation is on the second. */
  lemma TrialSolves(n: nat, fixed: seq<Fixed>, b: Board)
    requires |b| == n && IsSquare(b) && FixedInBoard(fixed, n)
    ensures var p := Overlay(b, fixed);
      var r := Trial(n, fixed, b);
      && (r.Ok? <==> Gale(p).Ok? && Gale(Rotate180(p)).Ok?)
      && (Gale(p).Err? ==> r == Err(Gale(p).error))
      && (Gale(p).Ok? && Gale(Rotate180(p)).Err? ==> r == Err(Gale(Rotate180(p)).error))
      && (r.Ok? ==> r.value.winner == Gale(p).value.winner && r.value.rotWinner == Gale(Rotate180(p)).value.winner)
      && (r.Ok? ==> forall c {:trigger c in r.value.critical} :: c in r.value.critical <==>
            c in Gale(p).value.chain && RotateCell(c, n) in Gale(Rotate180(p)).value.chain)
  {
  }

  /** A cell on the board's chain whose image is on the rotated board's chain
      holds the stone of both winners. */
  lemma BothChains(p: Board, s: Solution, t: Solution)
    requires IsSquare(p)
    requires forall c {:trigger c in s.chain} :: c in s.chain ==>
      InBoard(c, |p|) && p[c.row][c.col] == s.winner
    requires forall c {:trigger c in t.chain} :: c in t.chain ==>
      InBoard(c, |p|) && Rotate180(p)[c.row][c.col] == t.winner
    ensures forall c {:trigger c in s.chain * RotateBack(t.chain, |p|)} ::
      c in s.chain * RotateBack(t.chain, |p|) ==>
        InBoard(c, |p|) && Cell(p, c) == s.winner && Cell(p, c) == t.winner
  {
    var n := |p|;
    forall c | c in s.chain * RotateBack(t.chain, n)
      ensures InBoard(c, n) && Cell(p, c) == s.winner && Cell(p, c) == t.winner
    {
      assert RotateCell(c, n) in t.chain;
    }
  }

  // ---------------------------------------------------------------------------
  // The trials of a round
  // ---------------------------------------------------------------------------

  predicate BoardsOfSize(boards: seq<Board>, n: nat) {
    forall t :: 0 <= t < |boards| ==> |boards[t]| == n && IsSquare(boards[t])
  }

  /** Run the trials in order; the first failing trial ends the round with its error. */
  function Outcomes(n: nat, fixed: seq<Fixed>, boards: seq<Board>): (r: Result<seq<TrialOutcome>>)
    requires FixedInBoard(fixed, n) && BoardsOfSize(boards, n)
    ensures r.Ok? ==> |r.value| == |boards|
    ensures n == 0 && |boards| > 0 ==> r == Err(EmptyBoard)
    decreases |boards|
  {
    if |boards| == 0 then Ok([])
    else
      var init := boards[..|boards| - 1];
      assert forall t :: 0 <= t < |init| ==> init[t] == boards[t];
      match Outcomes(n, fixed, init)
      case Err(e) => Err(e)
      case Ok(outs) =>
        match Trial(n, fixed, boards[|boards| - 1])
        case Err(e) => Err(e)
        case Ok(o) => Ok(outs + [o])
  }

  /** Each outcome of a successful round is the trial of its own board. */
  lemma {:induction false} OutcomeAt(n: nat, fixed: seq<Fixed>, boards: seq<Board>, t: nat)
    requires FixedInBoard(fixed, n) && BoardsOfSize(boards, n)
    requires t < |boards| && Outcomes(n, fixed, boards).Ok?
    ensures Trial(n, fixed, boards[t]) == Ok(Outcomes(n, fixed, boards).value[t])
    decreases |boards|
  {
    var init := boards[..|boards| - 1];
    assert BoardsOfSize(init, n);
    if t < |boards| - 1 {
      assert init[t] == boards[t];
      OutcomeAt(n, fixed, init, t);
    }
  }

  /** A failed round failed at some trial with that trial's error, and every
      trial before it succeeded. */
  lemma {:induction false} OutcomesFail(n: nat, fixed: seq<Fixed>, boards: seq<Board>) returns (t: nat)
    requires FixedInBoard(fixed, n) && BoardsOfSize(boards, n)
    requires Outcomes(n, fixed, boards).Err?
    ensures t < |boards| && Trial(n, fixed, boards[t]) == Err(Outcomes(n, fixed, boards).error)
    ensures BoardsOfSize(boards[..t], n) && Outcomes(n, fixed, boards[..t]).Ok?
    decreases |boards|
  {
    var init := boards[..|boards| - 1];
    assert BoardsOfSize(init, n);
    if Outcomes(n, fixed, init).Err? {
      t := OutcomesFail(n, fixed, init);
      FailInPrefix(n, fixed, boards);
      PrefixOfPrefix(n, fixed, boards, t);
    } else {
      t := |boards| - 1;
    }
  }

  /** A round whose trials but the last already failed fails with the same error. */
  lemma FailInPrefix(n: nat, fixed: seq<Fixed>, boards: seq<Board>)
    requires FixedInBoard(fixed, n) && BoardsOfSize(boards, n) && |boards| > 0
    requires BoardsOfSize(boards[..|boards| - 1], n)
    requires Outcomes(n, fixed, boards[..|boards| - 1]).Err?
    ensures Outcomes(n, fixed, boards) == Outcomes(n, fixed, boards[..|boards| - 1])
  {
  }

  /** A trial of the prefix is the trial of the whole, and so is a prefix of it. */
  lemma PrefixOfPrefix(n: nat, fixed: seq<Fixed>, boards: seq<Board>, t: nat)
    requires FixedInBoard(fixed, n) && BoardsOfSize(boards, n) && t < |boards| - 1
    ensures boards[..|boards| - 1][t] == boards[t]
    ensures boards[..|boards| - 1][..t] == boards[..t]
  {
  }

  /** Every board of a round is completely filled. */
  predicate AllFilled(boards: seq<Board>) {
    forall t :: 0 <= t < |boards| ==> Filled(boards[t])
  }

  /** With filled boards and stones 1 and 2 fixed, no trial of a round ends in no decision. */
  lemma OutcomesDecided(n: nat, fixed: seq<Fixed>, boards: seq<Board>)
    requires FixedInBoard(fixed, n) && BoardsOfSize(boards, n)
    ensures AllFilled(boards) && FixedPlayers(fixed) ==> Outcomes(n, fixed, boards) != Err(NoDecision)
  {
    if AllFilled(boards) && FixedPlayers(fixed) && Outcomes(n, fixed, boards).Err? {
      var t := OutcomesFail(n, fixed, boards);
      assert Filled(boards[t]);
    }
  }

  /** Every trial of a successful round succeeded. */
  lemma OutcomesAllOk(n: nat, fixed: seq<Fixed>, boards: seq<Board>)
    requires FixedInBoard(fixed, n) && BoardsOfSize(boards, n)
    requires Outcomes(n, fixed, boards).Ok?
    ensures forall t :: 0 <= t < |boards| ==> Trial(n, fixed, boards[t]).Ok?
  {
    forall t | 0 <= t < |boards|
      ensures Trial(n, fixed, boards[t]).Ok?
    {
      OutcomeAt(n, fixed, boards, t);
    }
  }

  /** The number of trials in which `c` was critical. */
  function Hits(outs: seq<TrialOutcome>, c: Coord): (k: nat)
    ensures k <= |outs|
    decreases |outs|
  {
    if |outs| == 0 then 0
    else Hits(outs[..|outs| - 1], c) + (if c in outs[|outs| - 1].critical then 1 else 0)
  }

  /** The number of trials the first player won. */
  function Wins(outs: seq<TrialOutcome>): (k: nat)
    ensures k <= |outs|
    decreases |outs|
  {
    if |outs| == 0 then 0
    else Wins(outs[..|outs| - 1]) + (if outs[|outs| - 1].winner == 1 then 1 else 0)
  }

  // ---------------------------------------------------------------------------
  // The grid of counts
  // ---------------------------------------------------------------------------

  type Grid = seq<seq<int>>

  /** Add one to the count of every cell of `s`. */
  function Bump(g: Grid, n: nat, s: set<Coord>): (r: Grid)
    requires |g| == n && IsSquare(g)
    ensures |r| == n && IsSquare(r)
    ensures forall c {:trigger Cell(r, c)} :: InBoard(c, n) ==> Cell(r, c) == Cell(g, c) + (if c in s then 1 else 0)
  {
    seq(n, i requires 0 <= i < n => seq(n, j requires 0 <= j < n => g[i][j] + (if Coord(i, j) in s then 1 else 0)))
  }

  /** Set the count of every fixed cell to zero. */
  function Clear(g: Grid, n: nat, fixed: seq<Fixed>): (r: Grid)
    requires |g| == n && IsSquare(g) && FixedInBoard(fixed, n)
    ensures |r| == n && IsSquare(r)
    ensures forall c {:trigger Cell(r, c)} :: InBoard(c, n) ==> Cell(r, c) == if IsFixed(fixed, c) then 0 else Cell(g, c)
    decreases |fixed|
  {
    if |fixed| == 0 then g
    else
      var init := fixed[..|fixed| - 1];
      assert forall k :: 0 <= k < |init| ==> init[k] == fixed[k];
      Put(Clear(g, n, init), fixed[|fixed| - 1].at, 0)
  }

  /** The counts after the given trials: each trial adds one at its critical
      cells, then the fixed cells are cleared. */
  function Tally(n: nat, fixed: seq<Fixed>, outs: seq<TrialOutcome>): (g: Grid)
    requires FixedInBoard(fixed, n)
    ensures |g| == n && IsSquare(g)
    // a fixed cell counts zero; any other cell counts the trials it was critical in
    ensures forall c {:trigger Cell(g, c)} :: InBoard(c, n) ==> Cell(g, c) == if IsFixed(fixed, c) then 0 else Hits(outs, c)
    decreases |outs|
  {
    if |outs| == 0 then Uniform(n, 0)
    else
      var prev := Tally(n, fixed, outs[..|outs| - 1]);
      Clear(Bump(prev, n, outs[|outs| - 1].critical), n, fixed)
  }

  /** No cell has a nonzero count. */
  predicate AllZero(g: Grid, n: nat)
    requires |g| == n && IsSquare(g)
  {
    forall i, j :: 0 <= i < n && 0 <= j < n ==> g[i][j] == 0
  }

  /** Once every cell is fixed, every count is zero. */
  lemma FullyFixedAllZero(n: nat, fixed: seq<Fixed>, outs: seq<TrialOutcome>)
    requires FixedInBoard(fixed, n) && Distinct(fixed) && |fixed| == n * n
    ensures AllZero(Tally(n, fixed, outs), n)
  {
    var cells := FixedCells(fixed);
    FixedCellsCount(fixed);
    BoardCellsBound(cells, n);
    var g := Tally(n, fixed, outs);
    forall i, j | 0 <= i < n && 0 <= j < n
      ensures g[i][j] == 0
    {
      assert Coord(i, j) in cells;
      assert Cell(g, Coord(i, j)) == g[i][j];
    }
  }
}
