/**
 * The board engine: a grid of cells, the ply counter and the game state, updated
 * in place by each move, plus the symmetry cursor (an index map and its depth)
 * used to compare two boards up to rotation and reflection.
 */
module TicTacToe {
  import opened Wrappers
  import opened Rules
  import opened Symmetry

  class Game {
    const lines: int
    const columns: int
    const sizeWin: int
    const maxSymmetryDepth: int
    /** The cells, row by row. */
    const board: array<Cell>
    /** The current symmetry view: logical cell k shows board[transformedBoard[k]]. */
    const transformedBoard: array<int>
    /** The number of moves played so far. */
    var level: nat
    var gameState: GameState
    /** How many steps of the symmetry schedule the cursor has taken. */
    var symmetryDepth: int

    ghost function Repr(): set<object>
    {
      {this, board, transformedBoard}
    }

    /** Shape invariant: positive dimensions, one cell per square, level counts the moves. */
    ghost predicate Shaped()
      reads this`level, board
    {
      lines > 0 && columns > 0 &&
      board.Length == lines * columns && transformedBoard.Length == lines * columns &&
      maxSymmetryDepth == MaxDepth(lines, columns) &&
      level == Occupied(board[..])
    }

    /** Class invariant: the shape, and the cursor holds the view of its depth. */
    ghost predicate Valid()
      reads this`level, this`symmetryDepth, board, transformedBoard
    {
      Shaped() &&
      0 <= symmetryDepth <= maxSymmetryDepth &&
      transformedBoard[..] == View(lines, columns, symmetryDepth)
    }

    /** The position this board stands for; the symmetry cursor is not part of it. */
    ghost function Abs(): Position
      reads this`level, this`gameState, board
    {
      Position(lines, columns, sizeWin, board[..], level, gameState)
    }

    /** A new board: every cell EMPTY, level 0, PLAYING, the cursor reset. */
    constructor (lines: int, columns: int, sizeWin: int)
      requires lines > 0 && columns > 0
      ensures Valid() && fresh(board) && fresh(transformedBoard)
      ensures Abs() == Initial(lines, columns, sizeWin)
      ensures symmetryDepth == 0 && transformedBoard[..] == Identity(lines * columns)
      ensures maxSymmetryDepth == 8 <==> lines == columns
      ensures maxSymmetryDepth == 4 <==> lines != columns
    {
      AreaPositive(lines, columns);
      this.lines := lines;
      this.columns := columns;
      this.sizeWin := sizeWin;
      board := new Cell[lines * columns](_ => Empty);
      level := 0;
      gameState := Playing;
      transformedBoard := new int[lines * columns];
      maxSymmetryDepth := if lines == columns then 8 else 4;
      new;
      OccupiedNone(board[..], board.Length);
      Reset();
    }

    /**
     * A deep copy of base with one more move at next, by the mover of base. The
     * caller has checked the move (see CopyWithMove).
     */
    constructor WithMove(base: Game, next: int)
      requires base.Valid() && 0 <= next < base.board.Length && base.board[next] == Empty
      ensures Valid() && fresh(board) && fresh(transformedBoard)
      ensures Abs() == Moved(base.Abs(), next)
      ensures symmetryDepth == 0 && maxSymmetryDepth == base.maxSymmetryDepth
    {
      ghost var before := base.Abs();
      OccupiedFill(before.cells, next, Mover(base.level));
      lines := base.lines;
      columns := base.columns;
      sizeWin := base.sizeWin;
      var copy := new Cell[base.lines * base.columns];
      forall i | 0 <= i < copy.Length {
        copy[i] := base.board[i];
      }
      level := base.level + 1;
      copy[next] := base.NextCellValue();
      board := copy;
      gameState := base.gameState;
      transformedBoard := new int[base.lines * base.columns];
      maxSymmetryDepth := base.maxSymmetryDepth;
      new;
      assert board[..] == before.cells[next := Mover(before.level)];
      assert base.board[..] == before.cells;
      if base.gameState == Playing {
        SetGameState(next);
      }
      assert Abs() == Moved(before, next);
      Reset();
    }

    /**
     * The checked copy-with-move: an illegal position or an occupied target cell is
     * an error; otherwise a fresh board one move ahead of base.
     */
    static method CopyWithMove(base: Game, next: int) returns (r: Result<Game>)
      requires base.Valid()
      ensures (next < 0 || next >= base.lines * base.columns) <==> r == Err(IllegalPosition)
      ensures r == Err(CellNotEmpty) <==>
                0 <= next < base.lines * base.columns && base.board[next] != Empty
      ensures r.Ok? ==> fresh(r.value.Repr()) && r.value.Valid() &&
                        r.value.Abs() == Moved(base.Abs(), next) && r.value.symmetryDepth == 0
    {
      if next < 0 || next >= base.lines * base.columns {
        return Err(IllegalPosition);
      }
      if base.board[next] != Empty {
        return Err(CellNotEmpty);
      }
      var g := new Game.WithMove(base, next);
      return Ok(g);
    }

    /** The value the next move places: X on even levels, O on odd ones. */
    function NextCellValue(): (v: Cell)
      reads this`level
      ensures v == Mover(level)
    {
      if level % 2 == 0 then X else O
    }

    /** The cell at i, or an error for an index off the board. */
    function ValueAt(i: int): (r: Result<Cell>)
      requires Shaped()
      reads this, board
      ensures r.Err? <==> !(0 <= i < lines * columns)
      ensures r.Err? ==> r.error == IllegalPosition
      ensures r.Ok? ==> r.value == Abs().cells[i]
    {
      if i < 0 || i >= lines * columns then Err(IllegalPosition) else Ok(board[i])
    }

    /**
     * Plays the next mover at i, in place. An index off the board or an occupied
     * cell is an error and changes nothing; otherwise the board becomes Moved(old, i):
     * the state is recomputed only while still PLAYING.
     */
    method Play(i: int) returns (err: Option<Error>)
      requires Valid()
      modifies this`level, this`gameState, board
      ensures Valid()
      ensures (i < 0 || i >= lines * columns) ==> err == Some(IllegalPosition)
      ensures 0 <= i < lines * columns && old(board[i]) != Empty ==> err == Some(CellNotEmpty)
      ensures err.None? <==> 0 <= i < lines * columns && old(board[i]) == Empty
      ensures err.None? ==> Abs() == Moved(old(Abs()), i)
      ensures err.Some? ==> Abs() == old(Abs())
    {
      if i < 0 || i >= lines * columns {
        return Some(IllegalPosition);
      }
      if board[i] != Empty {
        return Some(CellNotEmpty);
      }
      ghost var before := Abs();
      OccupiedFill(board[..], i, Mover(level));
      board[i] := NextCellValue();
      level := level + 1;
      if gameState == Playing {
        SetGameState(i);
      }
      err := None;
    }

    /**
     * Decides the state after a move at index from a PLAYING position: the clipped
     * scans along the four axes, in order, then DRAW on a full board, else PLAYING.
     */
    method SetGameState(index: int)
      requires Shaped() && 0 <= index < board.Length && board[index] != Empty
      modifies this`gameState
      ensures gameState == StateAfterMove(old(Abs()), index)
    {
      var left := Min(sizeWin - 1, index % columns);
      var right := Min(sizeWin - 1, columns - (index % columns + 1));
      var won := LineThrough(index, Horizontal, 1, left, right);
      if won {
        var _ := SetWinner(board[index]);
        return;
      }

      var up := Min(sizeWin - 1, index / columns);
      var down := Min(sizeWin - 1, lines - (index / columns + 1));
      won := LineThrough(index, Vertical, columns, up, down);
      if won {
        var _ := SetWinner(board[index]);
        return;
      }

      var upLeft := Min(up, left);
      var downRight := Min(down, right);
      won := LineThrough(index, Diagonal, columns + 1, upLeft, downRight);
      if won {
        var _ := SetWinner(board[index]);
        return;
      }

      var upRight := Min(up, right);
      var downLeft := Min(down, left);
      won := LineThrough(index, AntiDiagonal, columns - 1, upRight, downLeft);
      if won {
        var _ := SetWinner(board[index]);
        return;
      }

      if level == lines * columns {
        gameState := Draw;
      } else {
        gameState := Playing;
      }
    }

    /**
     * One axis of the win check: the run of the value at index counted backwards
     * over back cells plus the run counted forwards over fwd cells reaches
     * sizeWin - 1 exactly when a line of sizeWin such cells along a passes index.
     */
    method LineThrough(index: int, ghost a: Axis, gap: int, back: int, fwd: int) returns (won: bool)
      requires Shaped() && 0 <= index < board.Length && Clipped(index, a, gap, back, fwd)
      ensures won <==> AxisWin(Abs(), index, a, board[index])
    {
      ScanFits(index, a, gap, back, fwd);
      var b := CountConsecutive(index - gap, back, -gap, board[index]);
      var f := CountConsecutive(index + gap, fwd, gap, board[index]);
      AxisScan(Abs(), index, a, b, f);
      won := b + f >= sizeWin - 1;
    }

    /** The scan lengths along a from index: clipped to sizeWin - 1 and to the board edge. */
    ghost predicate Clipped(index: int, a: Axis, gap: int, back: int, fwd: int)
      requires columns > 0
    {
      var r, c := index / columns, index % columns;
      gap == Gap(a, columns) &&
      back == Min(sizeWin - 1, DistBack(a, lines, columns, r, c)) &&
      fwd == Min(sizeWin - 1, DistFwd(a, lines, columns, r, c))
    }

    /** Every cell of the scan start, start + step, ... of steps cells lies on the board. */
    ghost predicate ScanOnBoard(start: int, steps: int, step: int)
      reads this
    {
      forall i :: 0 <= i < steps ==> 0 <= Pos(start, i, step) < board.Length
    }

    /** Both clipped scans along a from index stay on the board. */
    lemma ScanFits(index: int, a: Axis, gap: int, back: int, fwd: int)
      requires Shaped() && 0 <= index < board.Length && Clipped(index, a, gap, back, fwd)
      ensures ScanOnBoard(index - gap, back, -gap) && ScanOnBoard(index + gap, fwd, gap)
    {
      var start, minus := index - gap, -gap;
      forall i | 0 <= i < back ensures 0 <= Pos(start, i, minus) < board.Length {
        BackScanInBounds(Abs(), index, a, i);
      }
      start := index + gap;
      forall i | 0 <= i < fwd ensures 0 <= Pos(start, i, gap) < board.Length {
        FwdScanInBounds(Abs(), index, a, i);
      }
    }

    /**
     * Counts the cells equal to value at start, start + stepGap, ..., stopping at
     * the first other value or after numberOfSteps cells.
     */
    method CountConsecutive(start: int, numberOfSteps: int, stepGap: int, value: Cell)
      returns (result: int)
      requires ScanOnBoard(start, numberOfSteps, stepGap)
      ensures IsRun(board[..], start, numberOfSteps, stepGap, value, result)
      ensures 0 <= result && (numberOfSteps >= 0 ==> result <= numberOfSteps)
    {
      result := 0;
      var i := 0;
      while i < numberOfSteps
        invariant 0 <= i && (i == 0 || i <= numberOfSteps) && result == i
        invariant forall j :: 0 <= j < i ==> board[Pos(start, j, stepGap)] == value
      {
        if board[Pos(start, i, stepGap)] != value {
          break;
        }
        result := result + 1;
        i := i + 1;
      }
    }

    /** Declares value the winner; EMPTY is an error and changes nothing. */
    method SetWinner(value: Cell) returns (err: Option<Error>)
      modifies this`gameState
      ensures value == Empty ==> err == Some(IllegalCellValue) && gameState == old(gameState)
      ensures value == X ==> err == None && gameState == XWin
      ensures value == O ==> err == None && gameState == OWin
    {
      match value
      case X =>
        gameState := XWin;
        err := None;
      case O =>
        gameState := OWin;
        err := None;
      case Empty =>
        err := Some(IllegalCellValue);
    }

    /**
     * Plain equality: other is a board with the same level, dimensions, winning
     * length and cells. Equal boards are also equal up to symmetry.
     */
    function Equals(other: Game?): (r: bool)
      requires Valid() && (other != null ==> other.Valid())
      reads this, board, transformedBoard
      reads if other != null then {other, other.board, other.transformedBoard} else {}
      ensures r <==> other != null && level == other.level && lines == other.lines &&
                     columns == other.columns && sizeWin == other.sizeWin &&
                     board[..] == other.board[..]
      ensures r ==> SymEq(Abs(), other.Abs())
    {
      if other == null then false
      else if level != other.level || lines != other.lines ||
              columns != other.columns || sizeWin != other.sizeWin then false
      else
        var same := board[..] == other.board[..];
        if same then SameIsSymEq(Abs(), other.Abs()); true else false
    }

    /** Puts the cursor back on the identity view at depth 0. */
    method Reset()
      requires Shaped()
      modifies this`symmetryDepth, transformedBoard
      ensures Valid()
      ensures symmetryDepth == 0 && transformedBoard[..] == Identity(lines * columns)
    {
      symmetryDepth := 0;
      var i := 0;
      while i < transformedBoard.Length
        modifies transformedBoard
        invariant 0 <= i <= transformedBoard.Length
        invariant forall j :: 0 <= j < i ==> transformedBoard[j] == j
      {
        transformedBoard[i] := i;
        i := i + 1;
      }
      assert transformedBoard[..] == Identity(lines * columns);
    }

    /** Whether the cursor has views left to visit. */
    function HasNext(): (b: bool)
      reads this`symmetryDepth
      ensures b <==> symmetryDepth < maxSymmetryDepth
    {
      symmetryDepth < maxSymmetryDepth
    }

    /**
     * Advances the cursor one step of the schedule, composing that step onto the
     * index map; past the last view it is an error and changes nothing.
     */
    method Next() returns (err: Option<Error>)
      requires Valid()
      modifies this`symmetryDepth, transformedBoard
      ensures Valid()
      ensures old(symmetryDepth) < maxSymmetryDepth ==>
                err == None && symmetryDepth == old(symmetryDepth) + 1
      ensures old(symmetryDepth) >= maxSymmetryDepth ==>
                err == Some(SymmetriesExhausted) && symmetryDepth == old(symmetryDepth) &&
                transformedBoard[..] == old(transformedBoard[..])
    {
      var d := symmetryDepth;
      if maxSymmetryDepth == 4 {
        if d == 0 {
        } else if d == 1 || d == 3 {
          ApplyInPlace(transformedBoard, lines, columns, HFlip);
        } else if d == 2 {
          ApplyInPlace(transformedBoard, lines, columns, VFlip);
        } else {
          return Some(SymmetriesExhausted);
        }
      } else {
        if d == 0 {
        } else if d == 4 {
          ApplyInPlace(transformedBoard, lines, columns, HFlip);
        } else if 1 <= d < 8 {
          ApplyInPlace(transformedBoard, lines, columns, Rotate);
        } else {
          return Some(SymmetriesExhausted);
        }
      }
      symmetryDepth := d + 1;
      return None;
    }

    /**
     * Counts the cells on which the current view of this board agrees with other;
     * the count is the full board size exactly when the view shows other's cells.
     */
    method CountEqualCells(other: Game) returns (equalCellCount: int)
      requires Valid() && other.board.Length == board.Length
      ensures 0 <= equalCellCount <= lines * columns
      ensures equalCellCount == lines * columns <==>
                Matches(board[..], other.board[..], transformedBoard[..])
    {
      ViewPermutes(lines, columns, symmetryDepth);
      assert forall k :: 0 <= k < board.Length ==> 0 <= transformedBoard[k] < board.Length;
      equalCellCount := 0;
      var index := 0;
      while index < lines * columns
        invariant 0 <= index <= lines * columns && equalCellCount <= index
        invariant equalCellCount == index <==>
                    forall k :: 0 <= k < index ==> board[transformedBoard[k]] == other.board[k]
      {
        if board[transformedBoard[index]] == other.board[index] {
          equalCellCount := equalCellCount + 1;
        }
        index := index + 1;
      }
    }

    /**
     * Compares this board with other up to symmetry, moving this board's cursor
     * through its views from the first. True exactly when the parameters agree
     * and some view shows other's cells; the cursor is then left at the first
     * such view. Only the cursor changes.
     */
    method EqualsWithSymmetry(other: Game?) returns (r: bool)
      requires Valid() && (other != null ==> other.Valid())
      modifies this`symmetryDepth, transformedBoard
      ensures Valid() && Abs() == old(Abs())
      ensures r <==> other != null && SymEq(Abs(), other.Abs())
      ensures r ==> Matches(board[..], other.board[..], transformedBoard[..]) &&
                    NoViewMatches(board[..], other.board[..], lines, columns, symmetryDepth - 1)
      ensures other == null || lines != other.lines || columns != other.columns ||
              level != other.level || sizeWin != other.sizeWin ==>
                symmetryDepth == old(symmetryDepth) && transformedBoard[..] == old(transformedBoard[..])
    {
      if other == null {
        return false;
      } else if lines != other.lines || columns != other.columns || level != other.level ||
                sizeWin != other.sizeWin || maxSymmetryDepth != other.maxSymmetryDepth {
        return false;
      }
      ghost var mine, theirs := board[..], other.board[..];
      Reset();
      while HasNext()
        invariant Valid() && Abs() == old(Abs())
        invariant board[..] == mine && other.board[..] == theirs
        invariant NoViewMatches(mine, theirs, lines, columns, symmetryDepth)
        decreases maxSymmetryDepth - symmetryDepth
      {
        // The cursor has a next view, so advancing cannot fail here.
        var e := Next();
        assert e == None;
        var equalCellCount := CountEqualCells(other);
        if equalCellCount == lines * columns {
          ViewMatchSymEq(Abs(), other.Abs(), symmetryDepth);
          return true;
        }
        NoViewMatchesStep(mine, theirs, lines, columns, symmetryDepth);
      }
      NoViewMatchesNotSymEq(Abs(), other.Abs());
      return false;
    }
  }
}
