/**
 The rounds of the simulation. Each round runs its trials, stops the whole
 simulation when no cell was ever critical, and otherwise fixes the cell with
 the highest count (the first one in row-major order, as numpy's argmax
 picks it) to a stone drawn at random. The random boards and the random
 stones are inputs.
 */
module Simulation {
  import opened HexBoard
  import opened CriticalSearch

  /** Row-major order on cells. */
  predicate Before(a: Coord, b: Coord) {
    a.row < b.row || (a.row == b.row && a.col < b.col)
  }

  /** `c` holds the largest count, and every earlier cell holds a smaller one. */
  ghost predicate IsFirstMax(g: Grid, n: nat, c: Coord)
    requires |g| == n && IsSquare(g)
  {
    InBoard(c, n) &&
    forall d {:trigger Cell(g, d)} :: InBoard(d, n) ==> Cell(g, d) <= Cell(g, c) && (Before(d, c) ==> Cell(g, d) < Cell(g, c))
  }

  /** There is only one first maximum. */
  lemma FirstMaxUnique(g: Grid, n: nat, c: Coord, d: Coord)
    requires |g| == n && IsSquare(g)
    requires IsFirstMax(g, n, c) && IsFirstMax(g, n, d)
    ensures c == d
  {
    assert Cell(g, c) <= Cell(g, d) && Cell(g, d) <= Cell(g, c);
    assert !Before(c, d) && !Before(d, c);
  }

  /** The first cell of largest count, scanning row by row. */
  method ArgMax(g: Grid, n: nat) returns (c: Coord)
    requires n >= 1 && |g| == n && IsSquare(g)
    ensures IsFirstMax(g, n, c)
  {
    c := Coord(0, 0);
    var i := 0;
    while i < n
      invariant 0 <= i <= n
      invariant InBoard(c, n) && !Before(Coord(i, 0), c)
      invariant forall d {:trigger Cell(g, d)} :: InBoard(d, n) && Before(d, Coord(i, 0)) ==>
        Cell(g, d) <= Cell(g, c) && (Before(d, c) ==> Cell(g, d) < Cell(g, c))
    {
      var j := 0;
      while j < n
        invariant 0 <= j <= n
        invariant InBoard(c, n) && !Before(Coord(i, j), c)
        invariant forall d {:trigger Cell(g, d)} :: InBoard(d, n) && Before(d, Coord(i, j)) ==>
          Cell(g, d) <= Cell(g, c) && (Before(d, c) ==> Cell(g, d) < Cell(g, c))
      {
        if Cell(g, Coord(i, j)) > Cell(g, c) {
          c := Coord(i, j);
        }
        j := j + 1;
      }
      i := i + 1;
    }
  }

  /** Whether any cell has a nonzero count. */
  method AnyNonzero(g: Grid, n: nat) returns (any: bool)
    requires |g| == n && IsSquare(g)
    ensures any <==> !AllZero(g, n)
  {
    any := false;
    var i := 0;
    while i < n
      invariant 0 <= i <= n
      invariant !any <==> forall a, b :: 0 <= a < i && 0 <= b < n ==> g[a][b] == 0
    {
      var j := 0;
      while j < n
        invariant 0 <= j <= n
        invariant !any <==>
          (forall a, b :: 0 <= a < i && 0 <= b < n ==> g[a][b] == 0) &&
          (forall b :: 0 <= b < j ==> g[i][b] == 0)
      {
        if g[i][j] != 0 {
          any := true;
        }
        j := j + 1;
      }
      i := i + 1;
    }
  }

  // ---------------------------------------------------------------------------
  // One round
  // ---------------------------------------------------------------------------

  /** The random material of one round: the boards of its trials and the
      stone the chosen cell is fixed to. */
  datatype RoundInput = RoundInput(boards: seq<Board>, stone: int)

  /** A round either stops the simulation, or fixes a cell and reports the
      cell's count; either way it reports the first player's wins. */
  datatype RoundOutcome =
    | Stop(wins: nat)
    | Chosen(fixed: Fixed, maxCount: int, wins: nat)

  /** The counts of a round whose trials all succeeded. */
  function RoundCounts(n: nat, fixed: seq<Fixed>, boards: seq<Board>): (g: Grid)
    requires FixedInBoard(fixed, n) && BoardsOfSize(boards, n)
    requires Outcomes(n, fixed, boards).Ok?
    ensures |g| == n && IsSquare(g)
  {
    Tally(n, fixed, Outcomes(n, fixed, boards).value)
  }

  /** With the cells `before` fixed, the trials of `input` find no critical cell. */
  ghost predicate Stops(n: nat, input: RoundInput, before: seq<Fixed>)
    requires BoardsOfSize(input.boards, n) && FixedInBoard(before, n)
  {
    Outcomes(n, before, input.boards).Ok? &&
    AllZero(RoundCounts(n, before, input.boards), n)
  }

  /** With the cells `before` fixed, the trials of `input` find critical cells,
      and the chosen outcome `o` fixes the first one of largest count to the
      round's stone, reporting that count and the first player's wins. */
  ghost predicate Chooses(n: nat, input: RoundInput, before: seq<Fixed>, o: RoundOutcome)
    requires BoardsOfSize(input.boards, n) && FixedInBoard(before, n)
  {
    o.Chosen? &&
    Outcomes(n, before, input.boards).Ok? &&
    var g := RoundCounts(n, before, input.boards);
    !AllZero(g, n) && IsFirstMax(g, n, o.fixed.at) && o.maxCount == Cell(g, o.fixed.at) &&
    o.fixed.value == input.stone && o.wins == Wins(Outcomes(n, before, input.boards).value)
  }

  /** When some count is nonzero, the first maximum was critical in at least
      one trial and at most all of them, so it is not a fixed cell. */
  lemma FirstMaxBounds(n: nat, fixed: seq<Fixed>, outs: seq<TrialOutcome>, c: Coord)
    requires FixedInBoard(fixed, n)
    requires !AllZero(Tally(n, fixed, outs), n) && IsFirstMax(Tally(n, fixed, outs), n, c)
    ensures 1 <= Cell(Tally(n, fixed, outs), c) <= |outs|
    ensures !IsFixed(fixed, c)
  {
    var g := Tally(n, fixed, outs);
    var i, j :| 0 <= i < n && 0 <= j < n && g[i][j] != 0;
    assert Cell(g, Coord(i, j)) == g[i][j] <= Cell(g, c);
    assert Hits(outs, c) <= |outs|;
  }

  /** A chosen cell was critical at least once and in at most every trial,
      and was not fixed before; the wins are at most the number of trials. */
  lemma ChoosesBounds(n: nat, input: RoundInput, before: seq<Fixed>, o: RoundOutcome)
    requires BoardsOfSize(input.boards, n) && FixedInBoard(before, n)
    requires Chooses(n, input, before, o)
    ensures 1 <= o.maxCount <= |input.boards| && o.wins <= |input.boards|
    ensures !IsFixed(before, o.fixed.at)
  {
    FirstMaxBounds(n, before, Outcomes(n, before, input.boards).value, o.fixed.at);
  }

  /** Stop when no cell was critical in any trial, otherwise fix the first
      cell of largest count to `stone`. */
  method Choose(n: nat, fixed: seq<Fixed>, outs: seq<TrialOutcome>, stone: int) returns (r: RoundOutcome)
    requires FixedInBoard(fixed, n)
    ensures r.wins == Wins(outs)
    ensures r.Stop? <==> AllZero(Tally(n, fixed, outs), n)
    ensures r.Chosen? ==>
      var g := Tally(n, fixed, outs);
      IsFirstMax(g, n, r.fixed.at) && r.maxCount == Cell(g, r.fixed.at) && r.fixed.value == stone
  {
    var g := Tally(n, fixed, outs);
    var wins := Wins(outs);
    var any := AnyNonzero(g, n);
    if !any {
      return Stop(wins);
    }
    var c := ArgMax(g, n);
    r := Chosen(Fixed(c, stone), Cell(g, c), wins);
  }

  /** One round: run the trials with the fixed cells overlaid, then stop or
      fix a further cell. */
  method Round(n: nat, fixed: seq<Fixed>, input: RoundInput) returns (r: Result<RoundOutcome>)
    requires FixedInBoard(fixed, n) && BoardsOfSize(input.boards, n)
    ensures r.Err? <==> Outcomes(n, fixed, input.boards).Err?
    ensures r.Err? ==> r.error == Outcomes(n, fixed, input.boards).error
    // the simulation stops exactly when no cell was critical
    ensures r.Ok? && r.value.Stop? <==> Stops(n, input, fixed)
    ensures r.Ok? && r.value.Chosen? ==> Chooses(n, input, fixed, r.value)
  {
    var outcomes := Outcomes(n, fixed, input.boards);
    if outcomes.Err? {
      return Err(outcomes.error);
    }
    var choice := Choose(n, fixed, outcomes.value, input.stone);
    r := Ok(choice);
  }

  // ---------------------------------------------------------------------------
  // The whole simulation
  // ---------------------------------------------------------------------------

  /** The fixed cells in the order they were chosen, and per round the
      first player's wins and the largest count. */
  datatype History = History(fixed: seq<Fixed>, wins: seq<nat>, maxCounts: seq<int>)

  predicate InputsOfSize(inputs: seq<RoundInput>, n: nat) {
    forall k :: 0 <= k < |inputs| ==> BoardsOfSize(inputs[k].boards, n)
  }

  /** Every round's boards are filled and its stone is 1 or 2, as the random draws make them. */
  predicate Drawn(inputs: seq<RoundInput>) {
    forall k :: 0 <= k < |inputs| ==> AllFilled(inputs[k].boards) && IsPlayer(inputs[k].stone)
  }

  /** The three lists of a history have one entry per round, and its cells
      are board cells. */
  predicate WellFormed(h: History, n: nat, rounds: nat) {
    |h.fixed| == |h.wins| == |h.maxCounts| <= rounds && FixedInBoard(h.fixed, n)
  }

  /** Round `k` of a run recorded entry `k` of the history, given the cells
      fixed before it. */
  ghost predicate ChoseAt(n: nat, inputs: seq<RoundInput>, h: History, k: nat)
    requires InputsOfSize(inputs, n) && WellFormed(h, n, |inputs|) && k < |h.fixed|
  {
    assert FixedInBoard(h.fixed[..k], n);
    Chooses(n, inputs[k], h.fixed[..k], Chosen(h.fixed[k], h.maxCounts[k], h.wins[k]))
  }

  /** Every entry of the history was recorded by its round. */
  ghost predicate Recorded(n: nat, inputs: seq<RoundInput>, h: History)
    requires InputsOfSize(inputs, n) && WellFormed(h, n, |inputs|)
  {
    forall k :: 0 <= k < |h.fixed| ==> ChoseAt(n, inputs, h, k)
  }

  /** The history with one more round's choice appended. */
  function Append(h: History, o: RoundOutcome): (r: History)
    requires o.Chosen?
    ensures |r.fixed| == |h.fixed| + 1 && r.fixed[|h.fixed|] == o.fixed
  {
    History(h.fixed + [o.fixed], h.wins + [o.wins], h.maxCounts + [o.maxCount])
  }

  /** Appending a cell not fixed before keeps the cells distinct, and appending
      a stone 1 or 2 keeps every fixed stone a player's. */
  lemma AppendKeeps(h: History, o: RoundOutcome)
    requires o.Chosen? && Distinct(h.fixed) && !IsFixed(h.fixed, o.fixed.at)
    ensures Distinct(Append(h, o).fixed)
    ensures FixedPlayers(h.fixed) && IsPlayer(o.fixed.value) ==> FixedPlayers(Append(h, o).fixed)
  {
    var next := Append(h, o).fixed;
    forall k | 0 <= k < |h.fixed|
      ensures next[k] == h.fixed[k]
    {
    }
  }

  /** An entry keeps its round's choice when the entries up to it are unchanged. */
  lemma ChoseAtKept(n: nat, inputs: seq<RoundInput>, h: History, next: History, k: nat)
    requires InputsOfSize(inputs, n) && WellFormed(h, n, |inputs|) && WellFormed(next, n, |inputs|)
    requires k < |h.fixed| <= |next.fixed| && ChoseAt(n, inputs, h, k)
    requires next.fixed[..k] == h.fixed[..k] && next.fixed[k] == h.fixed[k]
    requires next.wins[k] == h.wins[k] && next.maxCounts[k] == h.maxCounts[k]
    ensures ChoseAt(n, inputs, next, k)
  {
  }

  /** A run failed with error `e`: every round up to `h` chose as recorded in
      `h`, and a trial of the next round failed with `e`. */
  ghost predicate FailedAfter(n: nat, inputs: seq<RoundInput>, h: History, e: Fault)
    requires InputsOfSize(inputs, n)
  {
    && WellFormed(h, n, |inputs|)
    && Recorded(n, inputs, h)
    && |h.fixed| < |inputs|
    && Outcomes(n, h.fixed, inputs[|h.fixed|].boards) == Err(e)
  }

  /** A recorded history stays recorded when the next round's choice is appended. */
  lemma RecordedSnoc(n: nat, inputs: seq<RoundInput>, h: History, o: RoundOutcome)
    requires InputsOfSize(inputs, n) && WellFormed(h, n, |inputs|) && |h.fixed| < |inputs|
    requires Recorded(n, inputs, h) && Chooses(n, inputs[|h.fixed|], h.fixed, o)
    ensures WellFormed(Append(h, o), n, |inputs|) && Recorded(n, inputs, Append(h, o))
  {
    var next := Append(h, o);
    assert InBoard(o.fixed.at, n);
    assert WellFormed(next, n, |inputs|);
    forall k | 0 <= k < |next.fixed|
      ensures ChoseAt(n, inputs, next, k)
    {
      if k < |h.fixed| {
        assert ChoseAt(n, inputs, h, k);
        ChoseAtKept(n, inputs, h, next, k);
      } else {
        assert next.fixed[..k] == h.fixed;
      }
    }
  }

  /** Run up to n * n rounds, one per input, stopping early when a round finds
      no critical cell; the first failing trial fails the simulation. */
  method Simulate(n: nat, inputs: seq<RoundInput>) returns (r: Result<History>)
    requires |inputs| == n * n && InputsOfSize(inputs, n)
    ensures r.Ok? ==> WellFormed(r.value, n, n * n) && Distinct(r.value.fixed)
    // every entry of the history is what its round chose
    ensures r.Ok? ==> Recorded(n, inputs, r.value)
    // a run that ends before n * n rounds ends on a round with no critical cell
    ensures r.Ok? && |r.value.fixed| < n * n ==> Stops(n, inputs[|r.value.fixed|], r.value.fixed)
    // on filled boards with stones 1 and 2 the walk always decides
    ensures Drawn(inputs) ==> r != Err(NoDecision)
    // a run fails only when a trial fails, after rounds that chose as recorded
    ensures r.Err? ==> exists h :: FailedAfter(n, inputs, h, r.error)
  {
    var h := History([], [], []);
    while |h.fixed| < n * n
      invariant WellFormed(h, n, n * n) && Distinct(h.fixed) && Recorded(n, inputs, h)
      invariant Drawn(inputs) ==> FixedPlayers(h.fixed)
      decreases n * n - |h.fixed|
    {
      var step := |h.fixed|;
      var round := Round(n, h.fixed, inputs[step]);
      if round.Err? {
        assert Drawn(inputs) ==> AllFilled(inputs[step].boards);
        OutcomesDecided(n, h.fixed, inputs[step].boards);
        assert FailedAfter(n, inputs, h, round.error);
        return Err(round.error);
      }
      var o := round.value;
      if o.Stop? {
        return Ok(h);
      }
      ChoosesBounds(n, inputs[step], h.fixed, o);
      RecordedSnoc(n, inputs, h, o);
      AppendKeeps(h, o);
      h := Append(h, o);
    }
    r := Ok(h);
  }

  /** After n * n chosen cells every cell is fixed, so a further round would stop. */
  lemma FullRunStops(n: nat, fixed: seq<Fixed>, input: RoundInput)
    requires FixedInBoard(fixed, n) && Distinct(fixed) && |fixed| == n * n
    requires BoardsOfSize(input.boards, n) && Outcomes(n, fixed, input.boards).Ok?
    ensures Stops(n, input, fixed)
  {
    FullyFixedAllZero(n, fixed, Outcomes(n, fixed, input.boards).value);
  }
}
