# Gale's algorithm and the Monte-Carlo search for critical Hex cells

This project models the core of `HexMonteCarlo.py` in Dafny and proves properties of the model.

## What the program does

The program has two parts.

**Gale's algorithm** decides who won a completely filled n x n Hex board.
- The board is surrounded by a ring of stones (`extend`). The top and bottom rows of the ring belong to the first player (value 1). The side columns belong to the second player (value 2).
- A window of four lattice positions walks along the boundary between the two colours. It starts in the top-left corner.
- At each step the window turns left or right, according to which side the cell ahead matches.
- The walk ends when the cell ahead leaves the region `onBoard` accepts. Leaving through the bottom-left corner means the first player won. Leaving through the top-right corner means the second player won.
- The board cells the walk passed on the winner's side form the winning chain.

**The simulation** looks for the "critical" cells of a random Hex position. It runs up to n² rounds. Each round:
- draws N random boards;
- overlays the cells fixed in earlier rounds;
- solves each board, and also its 180-degree rotation, rotating the second chain back;
- counts, per cell, how often the cell lies on both chains;
- zeroes the counts of the fixed cells.

If every count is zero, the simulation stops. Otherwise the first cell of largest count, in row-major order, is fixed to a random stone.

## How it is modelled

Five modules, one per file:

- `HexBoard` (`hex_board.dfy`): boards as `seq<seq<int>>`, cells as `Coord(row, col)`, the 180-degree rotation, and counting lemmas about sets of cells.
- `BoundaryWalk` (`boundary_walk.dfy`): `Extend`, `OnBoard`, the four-position window and one step of the walk, the walk itself, the exit rule, and `Gale`.
- `UniformBoards` (`uniform_boards.dfy`): the exact results of the walk on the all-ones and all-twos boards of every size.
- `CriticalSearch` (`critical_search.dfy`): fixed cells and the overlay, one trial (both solves and the intersection of their chains), the outcomes of a round's trials, and the count grid.
- `Simulation` (`simulation.dfy`): the first-maximum scan, one round, and the loop over rounds with its history.

Modelling choices:

- The randomness is an input. Each round receives its boards and the stone for the chosen cell as a `RoundInput`.
- Failures are values of `Result`, not exceptions. Where the program would print `no decision` and then crash, the model returns `Err(NoDecision)`. Where it raises `ValueError`, the model returns `Err(BadExit)`. An empty board gives `Err(EmptyBoard)`. A walk that runs out of its step budget gives `Err(OutOfFuel)`.
- Row -1 of the bordered board reads its last row, as a negative Python list index does (`At`).
- A chain is the set of its cells: the program returns `list(set(...))`, which has no order.

## Model

| member | source | states |
|---|---|---|
| BoundaryWalk.Extend | HexMonteCarlo.py:50-79 | the bordered board has n + 2 rows; its first row is 2 followed by n + 1 ones, its last row n + 1 ones followed by 2; every board row is framed by a 2 on each side; board cell (i, j) sits at (i + 1, j + 1) |
| BoundaryWalk.ExtendShape | HexMonteCarlo.py:50-79 | the bordered copy of a square board is an (n + 2) x (n + 2) square, and it holds only stones 1 and 2 when the board is filled |
| BoundaryWalk.StartColoured | HexMonteCarlo.py:116-119 | the starting window has a second-player stone at v2 and a first-player stone at v3, and its four positions form two triangles of mutual neighbours |
| BoundaryWalk.StepTurns | HexMonteCarlo.py:136-149 | a step keeps one edge cell and moves the other to v4, choosing the side whose colour v4 matches; it keeps the colour invariant and the window shape; a turn exists exactly when v4 matches v2 or v3, so it always exists on a board of ones and twos |
| BoundaryWalk.RecordKeeps | HexMonteCarlo.py:130-134 | recording an edge cell (border cells are skipped) keeps a chain of cells that all hold the same stone |
| BoundaryWalk.Walk | HexMonteCarlo.py:121-151 | a finished walk stops exactly when v4 leaves the rows -1..n+1 and columns 0..n+1 that `onBoard` (lines 86-91) accepts, with v2 and v3 still inside; it fails only for an undecided step or an exhausted budget |
| BoundaryWalk.WalkKeeps | HexMonteCarlo.py:121-151 | every step keeps v2 on a second-player stone and v3 on a first-player stone; so every recorded v2 cell holds 2 and every recorded v3 cell holds 1 |
| BoundaryWalk.WalkDecided | HexMonteCarlo.py:136-149 | on a bordered board of ones and twos the walk never reaches the no-decision branch |
| BoundaryWalk.Verdict | HexMonteCarlo.py:153-162 | leaving through column -1 means the first player won, and the chain is exactly the set of recorded v3 cells; otherwise leaving through row 0 means the second player won, and the chain is exactly the set of recorded v2 cells; any other exit is an error; every chain cell holds the winner's stone |
| BoundaryWalk.Gale | HexMonteCarlo.py:93-162 | the winner is 1 or 2; every chain cell is a board cell holding the winner's stone; a filled board never ends in no decision; the empty board is an error |
| BoundaryWalk.GaleWalk | HexMonteCarlo.py:153-162 | once the walk's exit is known, Gale's answer is the exit rule applied to it: winner 1 with the v3 chain, winner 2 with the v2 chain, or the error |
| UniformBoards.AllOnesFirstWins | HexMonteCarlo.py:40-43 | on the all-ones board of every size n >= 1 the first player wins, and the chain is exactly the left column |
| UniformBoards.AllTwosSecondWins | HexMonteCarlo.py:45-48 | on the all-twos board of every size n >= 1 the second player wins, and the chain is exactly the top row |
| HexBoard.Rotate180 | HexMonteCarlo.py:208 | the rotated board is square, of the same size, and holds at the rotated position of every cell what the board holds at that cell |
| HexBoard.RotateCellInvolution | HexMonteCarlo.py:211-213 | rotating a cell twice gives the cell back, and a cell is on the board exactly when its rotation is |
| HexBoard.Rotate180Involution | HexMonteCarlo.py:208 | rotating a board twice gives the board back, and a board is filled exactly when its rotation is |
| HexBoard.BoardCellsBound | HexMonteCarlo.py:196 | a set of board cells has at most n * n members, and exactly n * n only when it holds every cell |
| CriticalSearch.FixedValue | HexMonteCarlo.py:202-203 | a cell has an overlay value exactly when it is among the fixed cells, and the value is one of the values fixed for it |
| CriticalSearch.LastEntryWins | HexMonteCarlo.py:202-203 | an entry for a cell that no later entry overrides decides the stone the overlay writes there; in particular, when no cell is fixed twice, every entry decides its own cell |
| CriticalSearch.FixedCellsCount | HexMonteCarlo.py:236 | fixed cells at distinct positions cover as many cells as there are entries |
| CriticalSearch.Put | HexMonteCarlo.py:203 | writing a stone changes that one cell and leaves every other cell as it was |
| CriticalSearch.Overlay | HexMonteCarlo.py:202-203 | after the overlay a fixed cell holds the value the fixed list gives it, and every other cell keeps the random stone |
| CriticalSearch.OverlayFilled | HexMonteCarlo.py:200-203 | overlaying stones 1 and 2 on a filled board gives a filled board |
| CriticalSearch.RotateBack | HexMonteCarlo.py:211-214 | a cell is in the rotated-back chain exactly when its rotation is in the chain of the rotated board |
| CriticalSearch.Trial | HexMonteCarlo.py:200-217 | a trial's two winners are players; every critical cell lies on the board and holds the stone of both winners on the overlaid board; a filled board with stones 1 and 2 fixed never ends in no decision; the empty board is an error |
| CriticalSearch.TrialSolves | HexMonteCarlo.py:205-217 | a trial succeeds exactly when Gale succeeds on the overlaid board and on its rotation, and otherwise fails with the error of the first solve that fails; its winners are the two solves' winners; a cell is critical exactly when it is on the first chain and its rotation is on the second |
| CriticalSearch.BothChains | HexMonteCarlo.py:217 | a cell on the chain and on the rotated-back chain holds both winners' stones |
| CriticalSearch.Outcomes | HexMonteCarlo.py:199-217 | a successful round of trials has one outcome per board; on the empty board the first trial fails |
| CriticalSearch.OutcomeAt | HexMonteCarlo.py:199-217 | outcome t is the result of trial t on board t |
| CriticalSearch.OutcomesFail | HexMonteCarlo.py:199-208 | a failing round fails with the error of its first failing trial; every trial before that one succeeds |
| CriticalSearch.OutcomesAllOk | HexMonteCarlo.py:199-208 | in a successful round every trial succeeds |
| CriticalSearch.OutcomesDecided | HexMonteCarlo.py:199-208 | when every board of a round is filled and every fixed stone is 1 or 2, no trial of the round ends in no decision |
| CriticalSearch.Hits | HexMonteCarlo.py:219-220 | a cell is counted at most once per trial |
| CriticalSearch.Wins | HexMonteCarlo.py:205-207 | the first player wins at most once per trial |
| CriticalSearch.Bump | HexMonteCarlo.py:219-220 | the count of each cell rises by one when the cell is critical and is unchanged otherwise |
| CriticalSearch.Clear | HexMonteCarlo.py:223-224 | fixed cells read zero afterwards and every other count is unchanged |
| CriticalSearch.Tally | HexMonteCarlo.py:197-224 | at the end of a round a fixed cell counts zero and every other cell counts the trials in which it was critical |
| CriticalSearch.FullyFixedAllZero | HexMonteCarlo.py:223-227 | once all n * n cells are fixed, every count is zero, so the stop test succeeds |
| Simulation.ArgMax | HexMonteCarlo.py:234-235 | the chosen cell holds the largest count, and every cell before it in row-major order holds a smaller one |
| Simulation.FirstMaxUnique | HexMonteCarlo.py:234-235 | only one cell is the first maximum |
| Simulation.AnyNonzero | HexMonteCarlo.py:227 | the test is true exactly when some count is nonzero |
| Simulation.FirstMaxBounds | HexMonteCarlo.py:231-236 | when a count is nonzero, the first maximum was critical in at least one trial and at most in all of them, and it is not a fixed cell |
| Simulation.Choose | HexMonteCarlo.py:227-237 | the round stops exactly when every count is zero; otherwise it fixes the first cell of largest count to the round's stone and reports that count; either way it reports the first player's wins |
| Simulation.Round | HexMonteCarlo.py:197-237 | a round fails exactly when one of its trials fails, with that trial's error; it stops exactly when its trials find no critical cell; otherwise it makes the choice above |
| Simulation.ChoosesBounds | HexMonteCarlo.py:231-237 | a chosen count lies between 1 and the number of trials, the wins are at most the number of trials, and the chosen cell was not fixed before |
| Simulation.AppendKeeps | HexMonteCarlo.py:236-237 | appending a cell that was not fixed before keeps the fixed cells distinct, and appending a stone 1 or 2 keeps every fixed stone a player's |
| Simulation.RecordedSnoc | HexMonteCarlo.py:236-239 | appending the next round's choice to a history whose entries were each chosen by their round gives such a history again |
| Simulation.Simulate | HexMonteCarlo.py:196-239 | the fixed cells are distinct board cells, at most n * n of them, with one wins count and one maximum per round; every entry is the choice its round made given the cells fixed before it; a run that ends early ends on a round with no critical cell; when every board is filled and every stone is 1 or 2, as the random draws make them, the run never fails for want of a decision; a failed run ended on a trial that failed in the round after a history whose every entry its round chose, with that trial's error |
| Simulation.FullRunStops | HexMonteCarlo.py:196-229 | once n * n distinct cells are fixed, a round with successful trials finds no critical cell |

`BoundaryWalk.Step` (lines 136-149) and the `BoundaryWalk.OnBoard` predicate (lines 86-91) carry no contract of their own: `BoundaryWalk.StepTurns` states what a step does, and `BoundaryWalk.Walk` states where `OnBoard` ends the walk.

## Left out

- Randomness (lines 164-169, 200 and 237): the random boards and the random stone are inputs, one `RoundInput` per round.
- Printing and output files (lines 81-84, 149, 188, 228, 240 and 243-254): they have no effect on the computed values.
- The margin statistic (lines 232-233): the model does not compute it. As written, line 232 cannot run. `criticalCount.sort()` sorts in place and returns `None`, so indexing its result raises a `TypeError`. That happens in the first round that finds a critical cell. Line 233 is broken too: `win_margin_history,append(...)` has a comma where a dot belongs, so it builds a tuple whose second element calls a name `append` that the program never defines or imports, and it raises a `NameError`. The model carries on as if both lines were absent.
- Ratios (lines 238-239): the model keeps the integer counts `wins` and `maxCount`, not the floats `win1/N` and `max_val/N`.
- The constants N and BoardSize (lines 182-185): they are parameters. N is the number of boards in a round's input, and n is the board size.
- BoundaryWalk.Walk: a step budget (`StepBound`, six per position) bounds the walk. The model does not prove that the budget is enough, or that the walk terminates and always leaves through one of the two corners. So `OutOfFuel` and `BadExit` are not ruled out.
- BoundaryWalk.Gale: does not state that the chain cells connect the winner's two sides; it states only that they hold the winner's stone.
- Simulation.Simulate: requires exactly n * n round inputs, one for every round the loop may run; rounds after a stop leave their input unused.
- Simulation.Choose: the stone is any integer. The program draws it from {1, 2}. `Simulation.Simulate` states its no-decision guarantee for inputs whose stones are 1 or 2 and whose boards are filled.
- numpy array aliasing and float count arrays (line 197): the counts are integers in a fresh grid per round.
