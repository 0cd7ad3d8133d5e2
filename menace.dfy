/**
 * The MENACE decoration of a tree board: one bead count per cell of the stored board,
 * read and written through the board's current symmetry view, and the weighted move
 * pick that draws a bead.
 */
module Menace {
  import opened Wrappers
  import opened Rules
  import opened Symmetry
  import opened TicTacToe
  import opened GameTree

  /** Beads an empty cell starts with, by the number of moves already made. */
  function BeadStart(level: int): int {
    if 0 <= level <= 2 then 8
    else if 3 <= level <= 4 then 4
    else if 5 <= level <= 6 then 2
    else if 7 <= level <= 9 then 1
    else 0
  }

  /**
   * The beads a new board starts with: empty cells get the beads of their level's band
   * (8 up to level 2, 4 up to level 4, 2 up to level 6, 1 up to level 9), occupied cells none.
   */
  function InitialBeads(cells: seq<Cell>, level: nat): (beads: seq<int>)
    ensures |beads| == |cells|
    ensures forall i :: 0 <= i < |cells| && cells[i] != Empty ==> beads[i] == 0
    ensures forall i :: 0 <= i < |cells| && cells[i] == Empty ==>
      (level <= 2 ==> beads[i] == 8) && (3 <= level <= 4 ==> beads[i] == 4) &&
      (5 <= level <= 6 ==> beads[i] == 2) && (7 <= level <= 9 ==> beads[i] == 1) &&
      (level > 9 ==> beads[i] == 0)
  {
    seq(|cells|, i requires 0 <= i < |cells| => if cells[i] == Empty then BeadStart(level) else 0)
  }

  /** The seed the MENACE tree decorates its boards with. */
  lemma InitialBeadsSeed()
    ensures Seeds(InitialBeads)
  {
  }

  /** No occupied cell holds a positive bead count. */
  ghost predicate BeadedOn(cells: seq<Cell>, beads: seq<int>) {
    |cells| == 9 && |beads| == 9 &&
    forall k :: 0 <= k < 9 && cells[k] != Empty ==> beads[k] <= 0
  }

  /** No occupied cell of the stored board holds a positive bead count. */
  ghost predicate Beaded(n: Node<int>)
    reads n.marks
  {
    BeadedOn(n.pos.cells, n.marks[..])
  }

  /** Every board of all, with the given decorations, satisfies BeadedOn. */
  ghost predicate TrainedOn(all: seq<Node<int>>, ms: seq<seq<int>>) {
    |ms| == |all| && forall i :: 0 <= i < |all| ==> BeadedOn(all[i].pos.cells, ms[i])
  }

  /** Every board of the tree satisfies Beaded. */
  ghost predicate Trained(all: seq<Node<int>>)
    reads Beads(all)
  {
    TrainedOn(all, Marks(all))
  }

  /** A board decorated with its initial beads satisfies Beaded. */
  lemma InitialIsBeaded(n: Node<int>)
    requires n.marks.Length == 9 && |n.pos.cells| == 9
    requires n.marks[..] == InitialBeads(n.pos.cells, n.pos.level)
    ensures Beaded(n)
  {
  }

  /** The bead count of logical cell `cell` under the board's current view. */
  function BeadCount(n: Node<int>, cell: int): (r: Result<int>)
    requires n.Valid()
    reads n.game, n.game.board, n.game.transformedBoard, n.marks
    ensures r.Err? <==> !(0 <= cell < 9)
    ensures r.Err? ==> r.error == IndexOutOfBounds
    ensures r.Ok? ==> r.value == n.marks[n.game.transformedBoard[cell]]
  {
    if 0 <= cell < 9 then Ok(n.marks[n.game.transformedBoard[cell]]) else Err(IndexOutOfBounds)
  }

  /**
   * Sets the bead count of logical cell `cell` under the board's current view; a cell off
   * the board is an error. Every other cell keeps its count.
   */
  method SetBeadCount(n: Node<int>, cell: int, count: int) returns (err: Option<Error>)
    requires n.Valid()
    modifies n.marks
    ensures n.Valid()
    ensures err.None? <==> 0 <= cell < 9
    ensures err.Some? ==> err.value == IndexOutOfBounds && n.marks[..] == old(n.marks[..])
    ensures err.None? ==> n.marks[..] == old(n.marks[..])[n.game.transformedBoard[cell] := count]
    ensures err.None? ==> BeadCount(n, cell) == Ok(count)
    ensures err.None? ==> forall c :: 0 <= c < 9 && c != cell ==> BeadCount(n, c) == old(BeadCount(n, c))
  {
    if cell < 0 || cell >= 9 {
      return Some(IndexOutOfBounds);
    }
    n.marks[n.game.transformedBoard[cell]] := count;
    assert forall c :: 0 <= c < 9 && c != cell ==>
      n.game.transformedBoard[c] != n.game.transformedBoard[cell];
    return None;
  }

  /** The running bead count of the first i logical cells under the view t. */
  ghost function Running(beads: seq<int>, t: seq<int>, i: int): int
    requires 0 <= i <= |t| && forall k :: 0 <= k < |t| ==> 0 <= t[k] < |beads|
  {
    SumVia(beads, t, i)
  }

  /** The first logical cell from i on at which the running count under t reaches goal. */
  ghost function FirstReach(beads: seq<int>, t: seq<int>, goal: int, i: nat): (r: Option<int>)
    requires i <= |t| && forall k :: 0 <= k < |t| ==> 0 <= t[k] < |beads|
    ensures r.Some? ==> i <= r.value < |t| && Running(beads, t, r.value + 1) >= goal &&
                        forall j :: i < j <= r.value ==> Running(beads, t, j) < goal
    ensures r.None? ==> forall j :: i < j <= |t| ==> Running(beads, t, j) < goal
    decreases |t| - i
  {
    if i == |t| then None
    else if Running(beads, t, i + 1) >= goal then Some(i)
    else FirstReach(beads, t, goal, i + 1)
  }

  /** The first logical cell from i on whose stored cell under t is empty. */
  ghost function FirstOpen(cells: seq<Cell>, t: seq<int>, i: nat): (r: Option<int>)
    requires i <= |t| && forall k :: 0 <= k < |t| ==> 0 <= t[k] < |cells|
    ensures r.Some? ==> i <= r.value < |t| && cells[t[r.value]] == Empty &&
                        forall j :: i <= j < r.value ==> cells[t[j]] != Empty
    ensures r.None? ==> forall j :: i <= j < |t| ==> cells[t[j]] != Empty
    decreases |t| - i
  {
    if i == |t| then None
    else if cells[t[i]] == Empty then Some(i)
    else FirstOpen(cells, t, i + 1)
  }

  /**
   * The move drawn from a board with bead counts beads, view t and stored cells cells:
   * with a positive total, the first logical cell where the running count reaches
   * draw % total + 1; otherwise the first logical cell whose stored cell is empty. A walk
   * that runs off the ninth logical cell reads past the view, an index error.
   */
  ghost function Pick(beads: seq<int>, t: seq<int>, cells: seq<Cell>, draw: nat): (r: Result<int>)
    requires |cells| == |beads| && forall k :: 0 <= k < |t| ==> 0 <= t[k] < |beads|
    ensures r.Ok? ==> 0 <= r.value < |t|
    ensures r.Err? ==> r.error == IndexOutOfBounds
  {
    if Sum(beads) > 0 then
      match FirstReach(beads, t, draw % Sum(beads) + 1, 0)
      case Some(i) => Ok(i)
      case None => Err(IndexOutOfBounds)
    else
      match FirstOpen(cells, t, 0)
      case Some(i) => Ok(i)
      case None => Err(IndexOutOfBounds)
  }

  /** A cell where the running count reaches goal, short of it at every earlier cell, is the first. */
  lemma {:induction false} FirstReachAt(beads: seq<int>, t: seq<int>, goal: int, i: nat, r: int)
    requires i <= r < |t| && forall k :: 0 <= k < |t| ==> 0 <= t[k] < |beads|
    requires Running(beads, t, r + 1) >= goal
    requires forall j :: i + 1 <= j <= r ==> Running(beads, t, j) < goal
    ensures FirstReach(beads, t, goal, i) == Some(r)
    decreases r - i
  {
    if i < r {
      FirstReachAt(beads, t, goal, i + 1, r);
    }
  }

  /** An empty cell with no empty cell before it is the first open one. */
  lemma {:induction false} FirstOpenAt(cells: seq<Cell>, t: seq<int>, i: nat, r: int)
    requires i <= r < |t| && forall k :: 0 <= k < |t| ==> 0 <= t[k] < |cells|
    requires cells[t[r]] == Empty && forall j :: i <= j < r ==> cells[t[j]] != Empty
    ensures FirstOpen(cells, t, i) == Some(r)
    decreases r - i
  {
    if i < r {
      FirstOpenAt(cells, t, i + 1, r);
    }
  }

  /** With no empty cell from i on, there is no open one. */
  lemma {:induction false} FirstOpenNone(cells: seq<Cell>, t: seq<int>, i: nat)
    requires i <= |t| && forall k :: 0 <= k < |t| ==> 0 <= t[k] < |cells|
    requires forall j :: i <= j < |t| ==> cells[t[j]] != Empty
    ensures FirstOpen(cells, t, i) == None
    decreases |t| - i
  {
    if i < |t| {
      FirstOpenNone(cells, t, i + 1);
    }
  }

  /** A weighted walk that first reaches its goal at logical cell i picks i. */
  lemma PickWeighted(beads: seq<int>, t: seq<int>, cells: seq<Cell>, draw: nat, i: int)
    requires |cells| == |beads| && forall k :: 0 <= k < |t| ==> 0 <= t[k] < |beads|
    requires Sum(beads) > 0 && 0 <= i < |t|
    requires Running(beads, t, i + 1) >= draw % Sum(beads) + 1
    requires forall j :: 1 <= j <= i ==> Running(beads, t, j) < draw % Sum(beads) + 1
    ensures Pick(beads, t, cells, draw) == Ok(i)
  {
    FirstReachAt(beads, t, draw % Sum(beads) + 1, 0, i);
  }

  /** A result with the properties PickMove promises on a board is that board's Pick. */
  lemma PickOf(n: Node<int>, draw: nat, r: Result<int>)
    requires n.Valid()
    requires var beads, t := n.marks[..], n.game.transformedBoard[..];
      IsPerm(t, 9) &&
      (Sum(beads) > 0 ==>
        var goal := draw % Sum(beads) + 1;
        r.Ok? && 0 <= r.value < 9 && Running(beads, t, r.value + 1) >= goal &&
        forall j :: 1 <= j <= r.value ==> Running(beads, t, j) < goal) &&
      (Sum(beads) <= 0 ==>
        (r.Ok? <==> exists i :: 0 <= i < 9 && n.pos.cells[t[i]] == Empty) &&
        (r.Ok? ==> 0 <= r.value < 9 && n.pos.cells[t[r.value]] == Empty &&
                   forall j :: 0 <= j < r.value ==> n.pos.cells[t[j]] != Empty) &&
        (r.Err? ==> r.error == IndexOutOfBounds))
    ensures r == Pick(n.marks[..], n.game.transformedBoard[..], n.pos.cells, draw)
  {
    var beads, t, cells := n.marks[..], n.game.transformedBoard[..], n.pos.cells;
    if Sum(beads) > 0 {
      PickWeighted(beads, t, cells, draw, r.value);
    } else if r.Ok? {
      FirstOpenAt(cells, t, 0, r.value);
    } else {
      FirstOpenNone(cells, t, 0);
    }
  }

  /**
   * The move MENACE draws from a board: with a positive bead total, draw % total + 1 beads
   * are counted off the logical cells in order and the cell where the count runs out is
   * picked; with no positive total, the first logical cell that is empty is picked, and a
   * board without one reads past the view, an index error.
   */
  method PickMove(n: Node<int>, draw: nat) returns (r: Result<int>)
    requires n.Valid()
    ensures var beads, t := n.marks[..], n.game.transformedBoard[..];
      IsPerm(t, 9) &&
      (Sum(beads) > 0 ==>
        var goal := draw % Sum(beads) + 1;
        r.Ok? && 0 <= r.value < 9 && Running(beads, t, r.value + 1) >= goal &&
        forall j :: 1 <= j <= r.value ==> Running(beads, t, j) < goal) &&
      (Sum(beads) <= 0 ==>
        (r.Ok? <==> exists i :: 0 <= i < 9 && n.pos.cells[t[i]] == Empty) &&
        (r.Ok? ==> 0 <= r.value < 9 && n.pos.cells[t[r.value]] == Empty &&
                   forall j :: 0 <= j < r.value ==> n.pos.cells[t[j]] != Empty) &&
        (r.Err? ==> r.error == IndexOutOfBounds))
    ensures var t := n.game.transformedBoard[..];
      Beaded(n) ==>
        (r.Ok? <==> exists i :: 0 <= i < 9 && n.pos.cells[t[i]] == Empty) &&
        (r.Ok? ==> 0 <= r.value < 9 && n.pos.cells[t[r.value]] == Empty)
    ensures r == Pick(n.marks[..], n.game.transformedBoard[..], n.pos.cells, draw)
  {
    hide Pick;
    ghost var beads, t := n.marks[..], n.game.transformedBoard[..];
    var total := 0;
    var i := 0;
    while i < 9
      invariant 0 <= i <= 9 && total == Sum(beads[..i])
    {
      assert beads[..i + 1][..i] == beads[..i];
      total := total + n.marks[i];
      i := i + 1;
    }
    assert beads[..9] == beads;
    if total <= 0 {
      r := FirstEmpty(n);
      PickOf(n, draw, r);
      return;
    }
    PermSumVia(beads, t);
    var goal := draw % total + 1;
    var nextMove := goal;
    i := 0;
    while i < 9
      invariant 0 <= i <= 9 && nextMove == goal - Running(beads, t, i)
      invariant forall j :: 1 <= j <= i ==> Running(beads, t, j) < goal
    {
      nextMove := nextMove - n.marks[n.game.transformedBoard[i]];
      if nextMove <= 0 {
        if Beaded(n) {
          WeightedPickIsEmpty(n, goal, i);
        }
        PickOf(n, draw, Ok(i));
        return Ok(i);
      }
      i := i + 1;
    }
    assert false;
  }

  /** The fallback pick: the first logical cell whose stored cell is empty. */
  method FirstEmpty(n: Node<int>) returns (r: Result<int>)
    requires n.Valid()
    ensures var t := n.game.transformedBoard[..];
      (r.Ok? <==> exists i :: 0 <= i < 9 && n.pos.cells[t[i]] == Empty) &&
      (r.Ok? ==> 0 <= r.value < 9 && n.pos.cells[t[r.value]] == Empty &&
                 forall j :: 0 <= j < r.value ==> n.pos.cells[t[j]] != Empty) &&
      (r.Err? ==> r.error == IndexOutOfBounds)
  {
    ghost var cells := n.pos.cells;
    assert n.game.Abs().cells == cells;
    var i := 0;
    while i < 9
      invariant 0 <= i <= 9
      invariant forall j :: 0 <= j < i ==> cells[n.game.transformedBoard[j]] != Empty
    {
      if n.game.ValueAt(n.game.transformedBoard[i]) == Ok(Empty) {
        return Ok(i);
      }
      i := i + 1;
    }
    // Logical cell 9 lies past the view.
    return Err(IndexOutOfBounds);
  }

  /**
   * The cell a weighted pick stops at holds at least one bead: the running count was
   * short of the goal before it and reaches the goal with it.
   */
  lemma PickedHasBeads(beads: seq<int>, t: seq<int>, goal: int, i: int)
    requires 0 <= i < |t| && forall k :: 0 <= k < |t| ==> 0 <= t[k] < |beads|
    requires Running(beads, t, i + 1) >= goal
    requires i == 0 ==> goal >= 1
    requires i > 0 ==> Running(beads, t, i) < goal
    ensures beads[t[i]] >= 1
  {
    assert Running(beads, t, i + 1) == Running(beads, t, i) + beads[t[i]];
  }

  /** On a board satisfying Beaded, a weighted pick lands on an empty stored cell. */
  lemma WeightedPickIsEmpty(n: Node<int>, goal: int, i: int)
    requires Beaded(n) && IsPerm(n.game.transformedBoard[..], 9)
    requires 0 <= i < 9 && goal >= 1
    requires Running(n.marks[..], n.game.transformedBoard[..], i + 1) >= goal
    requires forall j :: 1 <= j <= i ==> Running(n.marks[..], n.game.transformedBoard[..], j) < goal
    ensures n.pos.cells[n.game.transformedBoard[i]] == Empty
  {
    var t := n.game.transformedBoard[..];
    PickedHasBeads(n.marks[..], t, goal, i);
    assert n.marks[..][t[i]] == n.marks[t[i]];
  }
}
