/**
 * The rules of the game as pure values: cells, game states, the position a board
 * stands for, whose turn it is, and the declarative meaning of "this move won".
 *
 * Cells are numbered row by row: cell k sits in row k / columns and column
 * k % columns. A win is a straight run of at least sizeWin equal cells through the
 * cell just played, along one of four axes.
 */
module Rules {

  datatype Cell = Empty | X | O

  datatype GameState = Playing | XWin | OWin | Draw

  /** What a board stands for, leaving out its symmetry cursor. */
  datatype Position = Position(
    lines: int,
    columns: int,
    sizeWin: int,
    cells: seq<Cell>,
    level: nat,
    state: GameState)

  /** Positive dimensions and one cell per square. */
  ghost predicate WellShaped(p: Position) {
    p.lines > 0 && p.columns > 0 && |p.cells| == p.lines * p.columns
  }

  function Min(a: int, b: int): int {
    if a <= b then a else b
  }

  /** Positive dimensions give a non-empty board. */
  lemma AreaPositive(lines: int, columns: int)
    requires lines > 0 && columns > 0
    ensures lines * columns >= lines && lines * columns >= columns
  {
  }

  /** The board every game starts from. */
  ghost function Initial(lines: int, columns: int, sizeWin: int): (p: Position)
    requires lines > 0 && columns > 0
    ensures WellShaped(p) && p.level == 0 && p.state == Playing
    ensures p.lines == lines && p.columns == columns && p.sizeWin == sizeWin
    ensures forall k :: 0 <= k < |p.cells| ==> p.cells[k] == Empty
  {
    AreaPositive(lines, columns);
    Position(lines, columns, sizeWin, seq(lines * columns, _ => Empty), 0, Playing)
  }

  /** The value the next move places: X on even levels, O on odd ones; never EMPTY. */
  function Mover(level: nat): (v: Cell)
    ensures v != Empty
    ensures v == X <==> level % 2 == 0
  {
    if level % 2 == 0 then X else O
  }

  // ---------------------------------------------------------------------------
  // Counting the occupied cells

  /** The number of cells holding X or O among the first n. */
  function CountOccupied(cells: seq<Cell>, n: int): (m: nat)
    requires 0 <= n <= |cells|
    ensures m <= n
  {
    if n == 0 then 0 else CountOccupied(cells, n - 1) + (if cells[n - 1] == Empty then 0 else 1)
  }

  /** The number of cells holding X or O. */
  function Occupied(cells: seq<Cell>): (n: nat)
    ensures n <= |cells|
  {
    CountOccupied(cells, |cells|)
  }

  /** A board of EMPTY cells has nothing occupied. */
  lemma {:induction false} OccupiedNone(cells: seq<Cell>, n: int)
    requires 0 <= n <= |cells|
    requires forall i :: 0 <= i < |cells| ==> cells[i] == Empty
    ensures CountOccupied(cells, n) == 0
  {
    if n > 0 {
      OccupiedNone(cells, n - 1);
    }
  }

  /** Filling an empty cell occupies exactly one more cell. */
  lemma OccupiedFill(cells: seq<Cell>, k: int, v: Cell)
    requires 0 <= k < |cells| && cells[k] == Empty && v != Empty
    ensures Occupied(cells[k := v]) == Occupied(cells) + 1
  {
    CountFill(cells, k, v, |cells|);
  }

  /** CountOccupied after filling cell k counts one more once the prefix reaches k. */
  lemma {:induction false} CountFill(cells: seq<Cell>, k: int, v: Cell, n: int)
    requires 0 <= k < |cells| && cells[k] == Empty && v != Empty && 0 <= n <= |cells|
    ensures CountOccupied(cells[k := v], n) == CountOccupied(cells, n) + (if k < n then 1 else 0)
  {
    if n > 0 {
      CountFill(cells, k, v, n - 1);
    }
  }

  /** A board with fewer occupied cells than cells has an empty cell. */
  lemma {:induction false} FreeCell(cells: seq<Cell>, n: int) returns (k: int)
    requires 0 <= n <= |cells| && CountOccupied(cells, n) < n
    ensures 0 <= k < n && cells[k] == Empty
  {
    if cells[n - 1] == Empty {
      k := n - 1;
    } else {
      k := FreeCell(cells, n - 1);
    }
  }

  /** A board whose every cell is occupied holds no empty cell. */
  lemma {:induction false} FullBoard(cells: seq<Cell>, n: int, k: int)
    requires 0 <= n <= |cells| && CountOccupied(cells, n) == n && 0 <= k < n
    ensures cells[k] != Empty
  {
    if k < n - 1 {
      FullBoard(cells, n - 1, k);
    }
  }

  // ---------------------------------------------------------------------------
  // Board geometry

  function Index(columns: int, r: int, c: int): int {
    r * columns + c
  }

  predicate OnBoard(lines: int, columns: int, r: int, c: int) {
    0 <= r < lines && 0 <= c < columns
  }

  /** Multiplying by a non-negative factor keeps the order. */
  lemma {:induction false} MulMono(a: int, b: int, m: int)
    requires a <= b && m >= 0
    ensures a * m <= b * m
    decreases b - a
  {
    if a < b {
      MulMono(a + 1, b, m);
      assert (a + 1) * m == a * m + m;
    }
  }

  lemma IndexInRange(lines: int, columns: int, r: int, c: int)
    requires OnBoard(lines, columns, r, c)
    ensures 0 <= Index(columns, r, c) < lines * columns
  {
    MulMono(0, r, columns);
    MulMono(r, lines - 1, columns);
    assert (lines - 1) * columns == lines * columns - columns;
  }

  /** Every cell index is the index of its own row and column. */
  lemma IndexOfRowCol(columns: int, k: int)
    requires columns > 0 && k >= 0
    ensures Index(columns, k / columns, k % columns) == k
  {
  }

  /** The row of a cell of the board is one of its rows. */
  lemma RowInRange(lines: int, columns: int, k: int)
    requires columns > 0 && 0 <= k < lines * columns
    ensures 0 <= k / columns < lines
  {
    if k / columns >= lines {
      MulMono(lines, k / columns, columns);
    }
  }

  /** Division by a positive number has one quotient and one remainder. */
  lemma DivModUnique(k: int, m: int, q: int, rem: int)
    requires m > 0 && 0 <= rem < m && k == q * m + rem
    ensures k / m == q && k % m == rem
  {
    var q', rem' := k / m, k % m;
    assert k == q' * m + rem';
    if q' < q {
      MulMono(q' + 1, q, m);
    } else if q < q' {
      MulMono(q + 1, q', m);
    }
  }

  /** Row and column are recovered from an index. */
  lemma RowColOfIndex(columns: int, r: int, c: int)
    requires 0 <= c < columns
    ensures Index(columns, r, c) / columns == r && Index(columns, r, c) % columns == c
  {
    DivModUnique(Index(columns, r, c), columns, r, c);
  }

  /** The cell at row r, column c, or EMPTY off the board. */
  function CellAt(cells: seq<Cell>, columns: int, r: int, c: int): Cell {
    var k := Index(columns, r, c);
    if 0 <= k < |cells| then cells[k] else Empty
  }

  /** The four directions a line can run in. */
  datatype Axis = Horizontal | Vertical | Diagonal | AntiDiagonal

  /** Row of the cell t steps from row r along axis a. */
  function RowAt(a: Axis, r: int, t: int): int {
    if a == Horizontal then r else r + t
  }

  /** Column of the cell t steps from column c along axis a. */
  function ColAt(a: Axis, c: int, t: int): int {
    match a
    case Horizontal => c + t
    case Vertical => c
    case Diagonal => c + t
    case AntiDiagonal => c - t
  }

  /** Cells -lo..hi steps from (r, c) along a are all on the board and all hold v. */
  ghost predicate Segment(p: Position, r: int, c: int, a: Axis, lo: int, hi: int, v: Cell) {
    forall t :: lo <= t <= hi ==>
      OnBoard(p.lines, p.columns, RowAt(a, r, t), ColAt(a, c, t)) &&
      CellAt(p.cells, p.columns, RowAt(a, r, t), ColAt(a, c, t)) == v
  }

  /** Some line of at least sizeWin cells along a, through cell k, holds only v. */
  ghost predicate AxisWin(p: Position, k: int, a: Axis, v: Cell)
    requires p.columns > 0
  {
    exists lo, hi :: lo <= 0 <= hi && hi - lo + 1 >= p.sizeWin &&
      Segment(p, k / p.columns, k % p.columns, a, lo, hi, v)
  }

  /** The value at k lies on a winning line in some direction. */
  ghost predicate WinsThrough(p: Position, k: int)
    requires WellShaped(p) && 0 <= k < |p.cells|
  {
    var v := p.cells[k];
    AxisWin(p, k, Horizontal, v) || AxisWin(p, k, Vertical, v) ||
    AxisWin(p, k, Diagonal, v) || AxisWin(p, k, AntiDiagonal, v)
  }

  /** The state that declares v the winner. */
  function WinFor(v: Cell): GameState
    requires v != Empty
  {
    if v == X then XWin else OWin
  }

  /** The state of p, a position just reached by playing at k from a PLAYING position. */
  ghost function StateAfterMove(p: Position, k: int): GameState
    requires WellShaped(p) && 0 <= k < |p.cells| && p.cells[k] != Empty
  {
    if WinsThrough(p, k) then WinFor(p.cells[k])
    else if p.level == p.lines * p.columns then Draw
    else Playing
  }

  /**
   * The position after the next mover plays at the empty cell k: one more level, the
   * mover's value at k, and a state recomputed only while the game is still PLAYING.
   */
  ghost function Moved(p: Position, k: int): (q: Position)
    requires WellShaped(p) && 0 <= k < |p.cells| && p.cells[k] == Empty
    ensures WellShaped(q) && q.level == p.level + 1
    ensures q.lines == p.lines && q.columns == p.columns && q.sizeWin == p.sizeWin
    ensures q.cells[k] == Mover(p.level)
    ensures forall i :: 0 <= i < |p.cells| && i != k ==> q.cells[i] == p.cells[i]
    ensures p.state != Playing ==> q.state == p.state
  {
    var placed := p.(cells := p.cells[k := Mover(p.level)], level := p.level + 1);
    placed.(state := if p.state == Playing then StateAfterMove(placed, k) else p.state)
  }

  /**
   * While the ply counter counts the occupied cells, a move that ends in a draw
   * has filled the whole board.
   */
  lemma DrawFillsBoard(p: Position, k: int, i: int)
    requires WellShaped(p) && 0 <= k < |p.cells| && p.cells[k] == Empty
    requires p.level == Occupied(p.cells) && p.state == Playing
    requires Moved(p, k).state == Draw && 0 <= i < |p.cells|
    ensures Moved(p, k).cells[i] != Empty
  {
    var q := Moved(p, k);
    OccupiedFill(p.cells, k, Mover(p.level));
    FullBoard(q.cells, |q.cells|, i);
  }

  // ---------------------------------------------------------------------------
  // The clipped scan that decides a win

  /** How far apart consecutive cells of axis a are in the cell array. */
  function Gap(a: Axis, columns: int): int {
    match a
    case Horizontal => 1
    case Vertical => columns
    case Diagonal => columns + 1
    case AntiDiagonal => columns - 1
  }

  /** Steps available from (r, c) against the direction of a before leaving the board. */
  function DistBack(a: Axis, lines: int, columns: int, r: int, c: int): int {
    match a
    case Horizontal => c
    case Vertical => r
    case Diagonal => Min(r, c)
    case AntiDiagonal => Min(r, columns - 1 - c)
  }

  /** Steps available from (r, c) in the direction of a before leaving the board. */
  function DistFwd(a: Axis, lines: int, columns: int, r: int, c: int): int {
    match a
    case Horizontal => columns - 1 - c
    case Vertical => lines - 1 - r
    case Diagonal => Min(lines - 1 - r, columns - 1 - c)
    case AntiDiagonal => Min(lines - 1 - r, c)
  }

  /** The i-th cell index a scan visits from start in steps of step. */
  function Pos(start: int, i: int, step: int): int {
    start + i * step
  }

  /**
   * r is the length of the run of v at start, start + step, ..., cut off after
   * steps cells: what the win scan counts in one direction.
   */
  ghost predicate IsRun(cells: seq<Cell>, start: int, steps: int, step: int, v: Cell, r: int) {
    0 <= r && (r == 0 || r <= steps) &&
    (forall i :: 0 <= i < r ==> 0 <= Pos(start, i, step) < |cells| && cells[Pos(start, i, step)] == v) &&
    (r < steps ==> 0 <= Pos(start, r, step) < |cells| && cells[Pos(start, r, step)] != v)
  }

  /** Along an axis, the board is the cells within DistBack behind and DistFwd ahead. */
  lemma OnAxis(a: Axis, lines: int, columns: int, r: int, c: int, t: int)
    requires OnBoard(lines, columns, r, c)
    ensures OnBoard(lines, columns, RowAt(a, r, t), ColAt(a, c, t)) <==>
            -DistBack(a, lines, columns, r, c) <= t <= DistFwd(a, lines, columns, r, c)
  {
  }

  /** Stepping t times along a moves the cell index by t gaps. */
  lemma AxisIndex(a: Axis, columns: int, r: int, c: int, t: int)
    ensures Index(columns, RowAt(a, r, t), ColAt(a, c, t)) == Index(columns, r, c) + t * Gap(a, columns)
  {
    assert (r + t) * columns == r * columns + t * columns;
    assert t * (columns + 1) == t * columns + t;
    assert t * (columns - 1) == t * columns - t;
  }

  /** The cell t steps from k along a, when it is on the board, is k + t * gap. */
  lemma Along(p: Position, k: int, a: Axis, t: int)
    requires WellShaped(p) && 0 <= k < |p.cells|
    requires -DistBack(a, p.lines, p.columns, k / p.columns, k % p.columns) <= t
    requires t <= DistFwd(a, p.lines, p.columns, k / p.columns, k % p.columns)
    ensures var r, c := k / p.columns, k % p.columns;
      OnBoard(p.lines, p.columns, RowAt(a, r, t), ColAt(a, c, t)) &&
      Index(p.columns, RowAt(a, r, t), ColAt(a, c, t)) == k + t * Gap(a, p.columns) &&
      0 <= k + t * Gap(a, p.columns) < |p.cells| &&
      CellAt(p.cells, p.columns, RowAt(a, r, t), ColAt(a, c, t)) == p.cells[k + t * Gap(a, p.columns)]
  {
    var r, c := k / p.columns, k % p.columns;
    IndexOfRowCol(p.columns, k);
    RowInRange(p.lines, p.columns, k);
    OnAxis(a, p.lines, p.columns, r, c, t);
    AxisIndex(a, p.columns, r, c, t);
    IndexInRange(p.lines, p.columns, RowAt(a, r, t), ColAt(a, c, t));
  }

  /** The i-th cell of a scan that starts one gap away from k is i + 1 gaps away from k. */
  lemma PosShift(k: int, g: int, i: int)
    ensures Pos(k - g, i, -g) == k + (-(i + 1)) * g
    ensures Pos(k + g, i, g) == k + (i + 1) * g
  {
    assert i * (-g) == -(i * g);
    assert (-(i + 1)) * g == -(i * g) - g;
    assert (i + 1) * g == i * g + g;
  }

  /**
   * Every cell the backward scan reads lies on the board: Min(sizeWin - 1, DistBack)
   * cells from k - gap in steps of -gap.
   */
  lemma BackScanInBounds(p: Position, k: int, a: Axis, i: int)
    requires WellShaped(p) && 0 <= k < |p.cells| && 0 <= i
    requires i < Min(p.sizeWin - 1, DistBack(a, p.lines, p.columns, k / p.columns, k % p.columns))
    ensures 0 <= Pos(k - Gap(a, p.columns), i, -Gap(a, p.columns)) < |p.cells|
    ensures Pos(k - Gap(a, p.columns), i, -Gap(a, p.columns)) == k + (-(i + 1)) * Gap(a, p.columns)
  {
    PosShift(k, Gap(a, p.columns), i);
    RowInRange(p.lines, p.columns, k);
    Along(p, k, a, -(i + 1));
  }

  /**
   * Every cell the forward scan reads lies on the board: Min(sizeWin - 1, DistFwd)
   * cells from k + gap in steps of gap.
   */
  lemma FwdScanInBounds(p: Position, k: int, a: Axis, i: int)
    requires WellShaped(p) && 0 <= k < |p.cells| && 0 <= i
    requires i < Min(p.sizeWin - 1, DistFwd(a, p.lines, p.columns, k / p.columns, k % p.columns))
    ensures 0 <= Pos(k + Gap(a, p.columns), i, Gap(a, p.columns)) < |p.cells|
    ensures Pos(k + Gap(a, p.columns), i, Gap(a, p.columns)) == k + (i + 1) * Gap(a, p.columns)
  {
    PosShift(k, Gap(a, p.columns), i);
    RowInRange(p.lines, p.columns, k);
    Along(p, k, a, i + 1);
  }

  /** The two runs the scan counts, together with the played cell, form a segment of v. */
  lemma ScanCovers(p: Position, k: int, a: Axis, b: int, f: int)
    requires WellShaped(p) && 0 <= k < |p.cells|
    requires var r, c, g, s := k / p.columns, k % p.columns, Gap(a, p.columns), p.sizeWin - 1;
      IsRun(p.cells, k - g, Min(s, DistBack(a, p.lines, p.columns, r, c)), -g, p.cells[k], b) &&
      IsRun(p.cells, k + g, Min(s, DistFwd(a, p.lines, p.columns, r, c)), g, p.cells[k], f)
    ensures Segment(p, k / p.columns, k % p.columns, a, -b, f, p.cells[k])
  {
    var r, c := k / p.columns, k % p.columns;
    forall t | -b <= t <= f
      ensures OnBoard(p.lines, p.columns, RowAt(a, r, t), ColAt(a, c, t)) &&
              CellAt(p.cells, p.columns, RowAt(a, r, t), ColAt(a, c, t)) == p.cells[k]
    {
      RowInRange(p.lines, p.columns, k);
      if t < 0 {
        BackScanInBounds(p, k, a, -t - 1);
      } else if t > 0 {
        FwdScanInBounds(p, k, a, t - 1);
      }
      Along(p, k, a, t);
    }
  }

  /** The backward run stops early only at a cell that breaks every longer segment. */
  lemma BackRunMaximal(p: Position, k: int, a: Axis, b: int, lo: int, hi: int)
    requires WellShaped(p) && 0 <= k < |p.cells| && lo <= 0 <= hi
    requires IsRun(p.cells, k - Gap(a, p.columns),
                   Min(p.sizeWin - 1, DistBack(a, p.lines, p.columns, k / p.columns, k % p.columns)),
                   -Gap(a, p.columns), p.cells[k], b)
    requires Segment(p, k / p.columns, k % p.columns, a, lo, hi, p.cells[k])
    ensures b >= Min(p.sizeWin - 1, -lo)
  {
    var r, c := k / p.columns, k % p.columns;
    RowInRange(p.lines, p.columns, k);
    OnAxis(a, p.lines, p.columns, r, c, lo);
    if b < Min(p.sizeWin - 1, -lo) {
      BackScanInBounds(p, k, a, b);
      Along(p, k, a, -(b + 1));
      assert false;
    }
  }

  /** The forward run stops early only at a cell that breaks every longer segment. */
  lemma FwdRunMaximal(p: Position, k: int, a: Axis, f: int, lo: int, hi: int)
    requires WellShaped(p) && 0 <= k < |p.cells| && lo <= 0 <= hi
    requires IsRun(p.cells, k + Gap(a, p.columns),
                   Min(p.sizeWin - 1, DistFwd(a, p.lines, p.columns, k / p.columns, k % p.columns)),
                   Gap(a, p.columns), p.cells[k], f)
    requires Segment(p, k / p.columns, k % p.columns, a, lo, hi, p.cells[k])
    ensures f >= Min(p.sizeWin - 1, hi)
  {
    var r, c := k / p.columns, k % p.columns;
    RowInRange(p.lines, p.columns, k);
    OnAxis(a, p.lines, p.columns, r, c, hi);
    if f < Min(p.sizeWin - 1, hi) {
      FwdScanInBounds(p, k, a, f);
      Along(p, k, a, f + 1);
      assert false;
    }
  }

  /**
   * The clipped scan is exact: the two run lengths it counts along a add up to at
   * least sizeWin - 1 exactly when a line of sizeWin cells through k holds the value
   * at k.
   */
  lemma AxisScan(p: Position, k: int, a: Axis, b: int, f: int)
    requires WellShaped(p) && 0 <= k < |p.cells|
    requires var r, c, g, s := k / p.columns, k % p.columns, Gap(a, p.columns), p.sizeWin - 1;
      IsRun(p.cells, k - g, Min(s, DistBack(a, p.lines, p.columns, r, c)), -g, p.cells[k], b) &&
      IsRun(p.cells, k + g, Min(s, DistFwd(a, p.lines, p.columns, r, c)), g, p.cells[k], f)
    ensures b + f >= p.sizeWin - 1 <==> AxisWin(p, k, a, p.cells[k])
  {
    var r, c, v := k / p.columns, k % p.columns, p.cells[k];
    if b + f >= p.sizeWin - 1 {
      ScanCovers(p, k, a, b, f);
      assert Segment(p, r, c, a, -b, f, v);
    } else if AxisWin(p, k, a, v) {
      var lo, hi :| lo <= 0 <= hi && hi - lo + 1 >= p.sizeWin && Segment(p, r, c, a, lo, hi, v);
      BackRunMaximal(p, k, a, b, lo, hi);
      FwdRunMaximal(p, k, a, f, lo, hi);
    }
  }
}
