# MENACE and the perfect player, modelled in Dafny

This project models the core of a tic-tac-toe engine with two computer players:

- **MENACE**: the matchbox learning machine. It keeps bead counts per move and plays the bead-weighted move. It adds or removes beads along the moves of a game once the game is over.
- **The perfect player**: it labels every move of every board with its outcome, working backwards from the last move. It plays the move chosen from those labels.

The model covers four source files:

- `TicTacToeGame` (the board engine). It has the grid, the ply counter and the game state. It has the clipped four-axis win scan, the deep copy with one more move, and the symmetry cursor. The cursor is an index map composed step by step with quarter turns and row or column reversals. `equalsWithSymmetry` uses it.
- `MenaceTicTacToeGame`: a board with a bead count per cell, read and written through the board's current symmetry view, and the weighted move pick.
- `ComputerMenacePlayer` and `ComputerPerfectPlayer`. Both build the same layered tree of 3x3 boards, deduplicated up to symmetry. Each looks the live board up in that tree. MENACE also keeps its trail and reinforces it; the perfect player labels the tree from layer 8 down.

## Modules

| file | module | models |
|---|---|---|
| `wrappers.dfy` | `Wrappers` | `Option`, `Result` and the error kinds. Each Java exception is an error value. |
| `rules.dfy` | `Rules` | Cells, game states, positions, and the mover. `Moved` says what one move does. `WinsThrough` is the declarative meaning of a win. `AxisScan` proves the clipped scan exact. |
| `symmetry.dfy` | `Symmetry` | The symmetry schedule, the index maps it produces (`View`), and equality up to symmetry (`SymEq`). |
| `game.dfy` | `TicTacToe` | `class Game`, the board engine, updated in place. |
| `tree.dfy` | `GameTree` | The tree as values: `Layers`, its soundness, completeness and distinctness. The tree as decorated boards: `class Node<D>`, `Build` and `Lookup`. |
| `menace.dfy` | `Menace` | Initial beads, bead access through the view, and `PickMove`. |
| `menace_player.dfy` | `MenacePlayer` | `class Player`: the tree, the trail, `Play` and `GameFinished`. |
| `perfect_player.dfy` | `PerfectPlayer` | The labelling as values (`Resolved`), the labelling in place (`LabelAll`), and `class Player` with `Create` and `Play`. |

Both players build their tree with the same loop. The only difference is the board subclass, i.e. the decoration each board carries. That loop is modelled once, as `GameTree.Build`. It is parameterised by a seed function giving each new board its decoration: MENACE's initial beads, or the perfect player's initial labels.

Four behaviours of the code that the model keeps as written:

- `pickMove` sums the beads of all nine stored cells, not only the empty ones. It then walks the nine logical cells through the current view, not only the empty cells in index order.
- The fallback of `pickMove` reads one cell past the view when no logical cell is empty. The model returns an index error there.
- `play` rejects a live board whose level equals `lines*columns`. It also needs a layer at that level, so any other level of 10 or more is an index error in the model.
- `equalsWithSymmetry` catches the exhausted-cursor exception and answers false. Its loop guard makes that exception unreachable, and the model proves it so.

## Model

| member | source | states |
|---|---|---|
| Rules.Initial | src/Gameboards/TicTacToeGame.java:67-76 | A new board has `lines*columns` cells, all EMPTY, level 0, state PLAYING. |
| Rules.Mover | src/Gameboards/TicTacToeGame.java:215-217 | The next value is never EMPTY. It is X exactly on even levels. |
| Rules.OccupiedFill | src/Gameboards/TicTacToeGame.java:264-265 | Filling an empty cell raises the count of occupied cells by exactly one. So `level` keeps counting the occupied cells. |
| Rules.Moved | src/Gameboards/TicTacToeGame.java:255-269 | One move: the level goes up by one and the mover's value lands at k. Every other cell is kept, and a finished state is never changed. |
| Rules.AxisScan | src/Gameboards/TicTacToeGame.java:288-326 | The two clipped run lengths along one axis sum to at least `sizeWin-1` exactly when a line of `sizeWin` equal cells along that axis passes through the played cell. |
| Rules.DrawFillsBoard | src/Gameboards/TicTacToeGame.java:329-333 | A move that ends in DRAW leaves no empty cell. |
| Rules.OnAxis | src/Gameboards/TicTacToeGame.java:290-320 | The clip distances are exactly the steps along an axis that stay on the board. |
| Rules.BackRunMaximal | src/Gameboards/TicTacToeGame.java:339-350 | The backward run stops early only at a cell that breaks every longer line. |
| Rules.FwdRunMaximal | src/Gameboards/TicTacToeGame.java:339-350 | The forward run stops early only at a cell that breaks every longer line. |
| Rules.ScanCovers | src/Gameboards/TicTacToeGame.java:292-294 | The two runs together with the played cell form a line of equal cells. |
| Symmetry.MaxDepth | src/Gameboards/TicTacToeGame.java:86-90 | 8 views on square boards and 4 otherwise, as an if-and-only-if both ways. |
| Symmetry.StepAt | src/Gameboards/TicTacToeGame.java:435-497 | The first step keeps the identity. Quarter turns happen only on square boards. |
| Symmetry.SourceTarget | src/Gameboards/TicTacToeGame.java:441-491 | Each reversal and quarter turn has an inverse, so it is a bijection on cells. |
| Symmetry.ApplyPermutes | src/Gameboards/TicTacToeGame.java:441-491 | Composing a step onto a permutation gives a permutation. |
| Symmetry.ViewPermutes | src/Gameboards/TicTacToeGame.java:432-500 | Every view the cursor reaches is a permutation of the cells. |
| Symmetry.FirstViewIdentity | src/Gameboards/TicTacToeGame.java:438-440 | The first view compared, at depth 1, is the identity. |
| Symmetry.SameIsSymEq | src/Gameboards/TicTacToeGame.java:156-184 | Boards that are plainly equal are also equal up to symmetry. |
| Symmetry.NoViewMatchesNotSymEq | src/Gameboards/TicTacToeGame.java:533-557 | Once no view has matched, the boards are not equal up to symmetry. |
| Symmetry.SymEqOccupied | src/Gameboards/TicTacToeGame.java:517-522 | Boards equal up to symmetry have the same number of occupied cells. |
| Symmetry.PermSum | src/Gameboards/MenaceTicTacToeGame.java:66-88 | Reading the beads through a permutation keeps their total. So the weighted walk reaches the full total. |
| Symmetry.ApplyInPlace | src/Gameboards/TicTacToeGame.java:441-491 | The in-place rewrite of the index array equals the step composed onto the old map. |
| TicTacToe.Game.constructor | src/Gameboards/TicTacToeGame.java:67-91 | A valid fresh board equal to `Initial`, with the cursor at the identity. The depth is 8 exactly on square boards and 4 otherwise. |
| TicTacToe.Game.WithMove | src/Gameboards/TicTacToeGame.java:106-151 | A deep copy that is exactly `Moved(base, next)`, with the cursor reset. |
| TicTacToe.Game.CopyWithMove | src/Gameboards/TicTacToeGame.java:106-120 | Off the board gives IllegalPosition, and an occupied cell gives CellNotEmpty, each as an if-and-only-if. Otherwise the result is a fresh board equal to `Moved`. |
| TicTacToe.Game.NextCellValue | src/Gameboards/TicTacToeGame.java:215-217 | The value placed next is `Mover(level)`. |
| TicTacToe.Game.ValueAt | src/Gameboards/TicTacToeGame.java:229-236 | An error exactly off the board; otherwise the cell's value. |
| TicTacToe.Game.Play | src/Gameboards/TicTacToeGame.java:255-269 | Each error case changes nothing. Success exactly for an empty cell on the board, and the board becomes `Moved(old, i)`. The class invariant is kept. |
| TicTacToe.Game.SetGameState | src/Gameboards/TicTacToeGame.java:288-335 | The state becomes `StateAfterMove`: the mover's win if a line passes through the cell, else DRAW on a full level, else PLAYING. |
| TicTacToe.Game.LineThrough | src/Gameboards/TicTacToeGame.java:290-295 | One axis of the scan answers true exactly when `AxisWin` holds along that axis. |
| TicTacToe.Game.ScanFits | src/Gameboards/TicTacToeGame.java:343-344 | Every cell either clipped scan reads lies on the board. |
| TicTacToe.Game.CountConsecutive | src/Gameboards/TicTacToeGame.java:339-350 | The result is the run of `value` from the start, cut off after `numberOfSteps` cells. |
| TicTacToe.Game.SetWinner | src/Gameboards/TicTacToeGame.java:353-364 | X gives XWIN and O gives OWIN. EMPTY is an error and changes nothing. |
| TicTacToe.Game.Equals | src/Gameboards/TicTacToeGame.java:156-184 | True exactly when other is non-null with the same level, dimensions, winning length and cells. Equal boards are equal up to symmetry. |
| TicTacToe.Game.Reset | src/Gameboards/TicTacToeGame.java:406-414 | Depth 0 and the identity map. |
| TicTacToe.Game.HasNext | src/Gameboards/TicTacToeGame.java:422-425 | True exactly while depth is below the maximum. |
| TicTacToe.Game.Next | src/Gameboards/TicTacToeGame.java:432-500 | Advances one step and keeps the map equal to `View(depth)`. Past the last view it is an error and changes nothing. |
| TicTacToe.Game.CountEqualCells | src/Gameboards/TicTacToeGame.java:542-547 | The count is the board size exactly when the current view shows other's cells. |
| TicTacToe.Game.EqualsWithSymmetry | src/Gameboards/TicTacToeGame.java:512-558 | True exactly when other is non-null and `SymEq` holds. The cursor is left at the first matching view. Only the cursor changes. |
| GameTree.FirstCover | src/Players/ComputerPerfectPlayer.java:65-79 | The first index of a layer equal to x up to symmetry; None exactly when there is none. |
| GameTree.Expand | src/Players/ComputerMenacePlayer.java:39-56 | Offering a PLAYING board's children keeps the layer at the next level and only appends to it. |
| GameTree.Layers | src/Players/ComputerMenacePlayer.java:29-59 | Layer i holds 3x3 boards at level i. |
| GameTree.ExpandSound | src/Players/ComputerMenacePlayer.java:39-53 | Everything appended is a child of the parent. |
| GameTree.ExpandComplete | src/Players/ComputerMenacePlayer.java:40-53 | Every child of a PLAYING parent is covered afterwards. |
| GameTree.ExpandDistinct | src/Players/ComputerMenacePlayer.java:44-53 | No board of the layer is equal up to symmetry to an earlier one, the later board being the one compared. |
| GameTree.LayerSound | src/Players/ComputerMenacePlayer.java:34-59 | Every board of layer i is one move on from a PLAYING board of layer i-1. |
| GameTree.LayerComplete | src/Players/ComputerMenacePlayer.java:34-59 | Every move from a PLAYING board of layer i-1 is represented in layer i. |
| GameTree.LayerDistinct | src/Players/ComputerMenacePlayer.java:44-53 | In every layer, no board is equal up to symmetry to an earlier one, the later board being the one compared. |
| GameTree.LastLayerFinished | src/Players/ComputerMenacePlayer.java:34 | Every board of layer 9 is finished, so stopping after nine moves loses no PLAYING board. |
| GameTree.Node.constructor | src/Gameboards/MenaceTicTacToeGame.java:9-18 | A node holds its board and a fresh array holding the seed decoration. |
| GameTree.FirstMatch | src/Players/ComputerMenacePlayer.java:45-50 | Returns `FirstCover` of the new board in the layer. Only the new board's cursor moves. |
| GameTree.Spawn | src/Players/ComputerMenacePlayer.java:42 | A fresh child equal to `Moved(parent, j)`, holding its seed. |
| GameTree.Candidate | src/Players/ComputerMenacePlayer.java:42-50 | `isNew` exactly when no board of the layer covers the child. |
| GameTree.AddChild | src/Players/ComputerMenacePlayer.java:41-53 | The layer becomes `AddUnique(layer, child)`. The pool is kept, and new boards have fresh decoration arrays. |
| GameTree.ExpandParent | src/Players/ComputerMenacePlayer.java:39-56 | The layer becomes `Expand(layer, parent, 9)`. |
| GameTree.BuildLayer | src/Players/ComputerMenacePlayer.java:35-58 | The built layer is `NextLayer` of the previous one, and every board keeps its seed. |
| GameTree.Grow | src/Players/ComputerMenacePlayer.java:34-59 | One more layer is added and the chain invariant is kept. |
| GameTree.Build | src/Players/ComputerPerfectPlayer.java:20-53 | Ten layers equal to `Layers(0..9)`. Every board is valid and disjoint from the others, holds its seed, and has a fresh decoration array. |
| GameTree.Probe | src/Players/ComputerMenacePlayer.java:71 | True exactly when the stored board equals the live board up to symmetry. Only that board's cursor moves. |
| GameTree.Find | src/Players/ComputerMenacePlayer.java:70-78 | The first board of the layer equal to the live board up to symmetry; None exactly when there is none. Decorations are unchanged. |
| GameTree.Lookup | src/Players/ComputerMenacePlayer.java:63-83 | A full board gives GameFinishedAlready and a level past the layers gives IndexOutOfBounds. Otherwise GameNotFound exactly when the layer does not represent the live board, else the first representative. The live board is unchanged. |
| Menace.InitialBeads | src/Gameboards/MenaceTicTacToeGame.java:28-63 | Bands 8/4/2/1 for empty cells by level, and 0 for occupied cells. |
| Menace.InitialIsBeaded | src/Gameboards/MenaceTicTacToeGame.java:54-62 | Initial beads put no positive count on an occupied cell. |
| Menace.BeadCount | src/Gameboards/MenaceTicTacToeGame.java:20-22 | The count of stored cell `transformedBoard[cell]`; off the board it is an error. |
| Menace.SetBeadCount | src/Gameboards/MenaceTicTacToeGame.java:24-26 | Writes that stored cell only, and every other logical cell keeps its count. |
| Menace.FirstReach | src/Gameboards/MenaceTicTacToeGame.java:83-88 | The first logical cell from i on where the running bead count reaches the goal, with every earlier count short of it. None means the count never reaches the goal. |
| Menace.FirstOpen | src/Gameboards/MenaceTicTacToeGame.java:72-78 | The first logical cell from i on whose stored cell is empty, with no empty one before it. None means there is no empty one. |
| Menace.Pick | src/Gameboards/MenaceTicTacToeGame.java:65-90 | The move drawn from a board: `FirstReach` of `draw % total + 1` when the total is positive, else `FirstOpen`. A walk that finds nothing is an index error. A pick is a logical cell. |
| Menace.FirstReachAt | src/Gameboards/MenaceTicTacToeGame.java:83-88 | A cell where the count reaches the goal, with every earlier count short of it, is the cell `FirstReach` returns. |
| Menace.FirstOpenAt | src/Gameboards/MenaceTicTacToeGame.java:72-78 | An empty cell with no empty cell before it is the cell `FirstOpen` returns. |
| Menace.FirstOpenNone | src/Gameboards/MenaceTicTacToeGame.java:72-78 | With no empty cell from i on, `FirstOpen` returns None. |
| Menace.PickWeighted | src/Gameboards/MenaceTicTacToeGame.java:80-88 | With a positive total, the first cell where the walk reaches `draw % total + 1` is `Pick`. |
| Menace.PickOf | src/Gameboards/MenaceTicTacToeGame.java:65-90 | Any result with the first-reach or first-empty properties of `PickMove` is the board's `Pick`. |
| Menace.PickMove | src/Gameboards/MenaceTicTacToeGame.java:65-90 | The result is `Pick` of the board's beads, view and cells. With a positive total, it is the first logical cell where the running count reaches `draw % total + 1`. Otherwise it is the first logical cell that is empty, or an error when there is none. On a board with no beads on occupied cells, the pick is empty. |
| Menace.FirstEmpty | src/Gameboards/MenaceTicTacToeGame.java:72-78 | The first logical cell whose stored cell is empty, or an error exactly when there is none. |
| Menace.PickedHasBeads | src/Gameboards/MenaceTicTacToeGame.java:80-88 | The weighted pick stops on a cell holding at least one bead. |
| Menace.WeightedPickIsEmpty | src/Gameboards/MenaceTicTacToeGame.java:80-88 | On a board with no beads on occupied cells, the weighted pick lands on an empty cell. |
| MenacePlayer.RewardedCount | src/Players/ComputerMenacePlayer.java:111-115 | After reinforcing, each stored slot holds its old count plus delta times the number of trail entries that played it. Nothing else changes. |
| MenacePlayer.RewardedTrained | src/Players/ComputerMenacePlayer.java:122-131 | Taking beads away, or adding them only on empty cells, never puts beads on an occupied cell. |
| MenacePlayer.Player.constructor | src/Players/ComputerMenacePlayer.java:20-60 | The tree is `Layers(0..9)`. Every board holds `InitialBeads` of its cells and level (`Decorated`), so no board has beads on an occupied cell. The trail is empty. |
| MenacePlayer.Player.Locate | src/Players/ComputerMenacePlayer.java:65-71 | The three error cases. Otherwise the position b in the live level's layer of the first board equal to the live board up to symmetry: no earlier board represents it, and the board's view maps the live board onto it. Beads are unchanged. |
| MenacePlayer.Player.Play | src/Players/ComputerMenacePlayer.java:63-83 | The error cases change neither the board nor the trail. A represented live board uses the layer's first representative, at position `at`. Its `Pick` is the move: an error stops there, otherwise board and move join the trail, and the play succeeds exactly when that cell is on the board and empty, giving `Moved` by it. With a trained tree it succeeds exactly when the live board is represented. |
| MenacePlayer.Player.Move | src/Players/ComputerMenacePlayer.java:72-75 | The move is the board's `Pick`. A pick error is returned with the trail unchanged. Otherwise the pair joins the trail, and the play succeeds exactly when that cell is on the board and empty, giving `Moved` by it. When the stored board has no beads on occupied cells and the live level is below 9, the move is always legal. Errors leave the live board alone. |
| MenacePlayer.Player.Advance | src/Players/ComputerMenacePlayer.java:73-75 | The pair is appended to the trail and the move is played. The board's beads and view are unchanged. |
| MenacePlayer.Player.Commit | src/Players/ComputerMenacePlayer.java:73-74 | The trail grows by exactly that pair, and the reward slots stay aligned with the moves played. |
| MenacePlayer.Player.Append | src/Players/ComputerMenacePlayer.java:73-74 | The trail grows by exactly that pair and the beads are unchanged. |
| MenacePlayer.Player.Place | src/Players/ComputerMenacePlayer.java:75 | The live board is `Moved`, or unchanged on error. |
| MenacePlayer.Player.GameFinished | src/Players/ComputerMenacePlayer.java:86-103 | PLAYING is an error and changes nothing. Otherwise the beads become `Rewarded` with +3, +1 or -1 and the trail is cleared. |
| MenacePlayer.Player.Reinforce | src/Players/ComputerMenacePlayer.java:106-151 | The beads become `Rewarded(old, trail, delta)` and both trail lists are cleared. |
| MenacePlayer.Player.Walk | src/Players/ComputerMenacePlayer.java:111-115 | Each trail entry in order gets delta beads on its move. |
| MenacePlayer.Player.Reward | src/Players/ComputerMenacePlayer.java:112-114 | One more trail entry is rewarded, extending `Rewarded` from k to k+1 entries. |
| MenacePlayer.Player.Bead | src/Players/ComputerMenacePlayer.java:114 | One entry's slot gets delta; all other boards are untouched. |
| MenacePlayer.AddBeads | src/Players/ComputerMenacePlayer.java:114 | Adds delta to the stored slot behind logical cell m, and leaves every other board's beads alone. |
| MenacePlayer.Player.Clear | src/Players/ComputerMenacePlayer.java:117-118 | Both lists are empty and nothing else changes. |
| MenacePlayer.Player.StartNewGame | src/Players/ComputerMenacePlayer.java:96 | Sets the mark compared in `gameFinished`. |
| PerfectPlayer.Invert | src/Players/ComputerPerfectPlayer.java:68-77 | WIN and LOSE swap and DRAW stays DRAW. An unset outcome is the error. |
| PerfectPlayer.RelabelCells | src/Players/ComputerPerfectPlayer.java:61-82 | Labelling cells 0..j-1 succeeds exactly when each cell does. Each labelled cell holds its own label and the rest keep theirs. |
| PerfectPlayer.LayerBoards | src/Players/ComputerPerfectPlayer.java:59-85 | The same, board by board, for a layer. |
| PerfectPlayer.Resolved | src/Players/ComputerPerfectPlayer.java:58-86 | The final labels of layer k, defined layer by layer from the top: layer 9 keeps its seeds, and each lower layer is `LayerLabels` against the final labels of the layer above. An unlabelled child met on the way is an error. On success there is one label per cell of every board of the layer. |
| PerfectPlayer.ResolvedErr | src/Players/ComputerPerfectPlayer.java:74-76 | An error in any layer aborts all labelling below it. |
| PerfectPlayer.ResolvedAbove | src/Players/ComputerPerfectPlayer.java:58 | If labelling down to layer k succeeds, so does labelling down to every layer above k. |
| PerfectPlayer.ResolvedLayer | src/Players/ComputerPerfectPlayer.java:59-85 | Layer k's final labels are each board's `NodeLabels`, computed against the final labels of layer k+1. |
| PerfectPlayer.NodeCell | src/Players/ComputerPerfectPlayer.java:60-80 | An already decided board keeps its labels and an occupied cell keeps its label. A covered empty cell gets the inverted outcome of the first equal board above. |
| PerfectPlayer.ResolvedBoard | src/Players/ComputerPerfectPlayer.java:58-86 | In the final labels, a board whose outcome is set keeps its seed labels. An occupied cell keeps its seed label. Every empty cell of a PLAYING board gets WIN, LOSE or DRAW: the inverted outcome of the first board of the next layer equal to its child. |
| PerfectPlayer.StageStep | src/Players/ComputerPerfectPlayer.java:58-59 | Labelling layer i from the final labels of layer i+1 gives `Resolved(i)`. |
| PerfectPlayer.StageFinal | src/Players/ComputerPerfectPlayer.java:58 | Once labelling reaches layer j, every layer from j up holds its final labels. |
| PerfectPlayer.CellOutcome | src/Players/ComputerPerfectPlayer.java:62-77 | Returns `CellLabel` of the cell. |
| PerfectPlayer.ChildMatch | src/Players/ComputerPerfectPlayer.java:63-66 | The first board above equal to the child; `FirstCover`. |
| PerfectPlayer.LabelCell | src/Players/ComputerPerfectPlayer.java:62-80 | Writes only label j, or errors with nothing written. |
| PerfectPlayer.LabelNode | src/Players/ComputerPerfectPlayer.java:60-83 | The board's labels become `NodeLabels`, and error exactly when that is an error. |
| PerfectPlayer.LabelAt | src/Players/ComputerPerfectPlayer.java:59-85 | Only board b's labels change, to `NodeLabels`. |
| PerfectPlayer.LabelNext | src/Players/ComputerPerfectPlayer.java:59-60 | Extends a layer labelled up to b to b+1. |
| PerfectPlayer.LabelLayer | src/Players/ComputerPerfectPlayer.java:59-85 | Layer i becomes `LayerLabels(...)`, and the other layers are unchanged. |
| PerfectPlayer.LabelBelow | src/Players/ComputerPerfectPlayer.java:58-86 | The labels of the tree go from `Stage(i+1)` to `Stage(i)`. |
| PerfectPlayer.LabelAll | src/Players/ComputerPerfectPlayer.java:58-86 | Succeeds exactly when every `Resolved(k)` succeeds, and then layer k holds `Resolved(k)`. |
| PerfectPlayer.Player.Create | src/Players/ComputerPerfectPlayer.java:16-88 | Exists exactly when the labelling meets no unlabelled child, and then layer k holds `Resolved(k)`. |
| PerfectPlayer.Player.Locate | src/Players/ComputerPerfectPlayer.java:94-100 | The three error cases, else the first representative in the layer, its view left mapping the live board onto it. Only cursors of boards at the live level move, and the labels are unchanged. |
| PerfectPlayer.Player.Respond | src/Players/ComputerPerfectPlayer.java:101 | Plays the chosen move: `Moved` exactly when it is an empty cell on the board. |
| PerfectPlayer.Player.Play | src/Players/ComputerPerfectPlayer.java:92-109 | The error cases leave the live board alone. Otherwise the move chosen from the first representative's labels is played, read through the view that matched the live board. The labels stay unchanged. |

## Left out

- `toString`, `toStringTransformed` and `equals`' `getClass` test: rendering and the Java class hierarchy are not modelled. `Equals` takes a `Game?`.
- `Utils.rotate`, `Utils.horizontalFlip` and `Utils.verticalFlip` are not part of this model. They are defined from their documented meaning as cell maps: a quarter turn, a row reversal and a column reversal.
- `PerfectTicTacToeGame` is not part of this model. `getGameOutcome` and `choosePerfectMove` are function parameters of the perfect player. `setMoveOutcome(j, l)` is taken to write label j. The initial labels are a seed parameter.
- The `Player` base class is not part of this model. `myMove` is a field set by `StartNewGame`. `super.gameFinished` is left out.
- `Utils.generator.nextInt(total)` is modelled as `draw % total` for a caller-supplied natural `draw`, so every value in `[0, total)` is reachable.
- Java `int` overflow: bead counts, levels and indices are unbounded integers.
- Boards with non-positive dimensions: the constructors require positive `lines` and `columns`.
- The `System.out.println` before the perfect player's exception is left out.
- `pickMove`'s last `return beads.length-1` is unreachable: with a positive total the walk always stops by the ninth cell. The model proves this with `assert false` in its place.
- PerfectPlayer.Player.Play: states that the labels are unchanged (`Marks`). It does not state which cursors moved.
- MenacePlayer.Player.Play: reward-slot alignment (`Steady`) is only promised under the `Trained`/`Steady`/`Below` premises. A move drawn through a view that later moves again is not traced further.
- GameTree.Build: fresh allocation is stated only for the decoration arrays, which is what labelling in place needs.
- The exact count of boards per layer (765 in all) is not computed. Completeness is proved up to symmetry, which is what lookup needs.
