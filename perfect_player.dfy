/**
 * The perfect player: the same symmetry-deduplicated tree of 3x3 boards, each board
 * labelled cell by cell with the outcome of playing there (WIN, LOSE or DRAW for the
 * player about to move), worked out backwards from the last layer; and the lookup that
 * plays the move chosen from the labels of the live board's representative.
 *
 * The board-level outcome (getGameOutcome) and the choice of a move from the labels
 * (choosePerfectMove) belong to the perfect board, which is not part of this model:
 * both are parameters.
 */
module PerfectPlayer {
  import opened Wrappers
  import opened Rules
  import opened Symmetry
  import opened TicTacToe
  import opened GameTree

  /** The outcome of a board or of a move, for the player about to move. */
  datatype Label = NotSet | Win | Lose | Draw

  /**
   * The label of a move, given the outcome of the board it leads to, on which the
   * opponent moves next: a board the opponent wins is a losing move and the other way
   * round, a drawn board a drawing move; an unlabelled board is an error.
   */
  function Invert(l: Label): (r: Result<Label>)
    ensures r.Err? <==> l == NotSet
    ensures r.Err? ==> r.error == UnexpectedOutcome
    ensures r.Ok? ==> r.value != NotSet && (r.value == l <==> l == Label.Draw)
    ensures r.Ok? ==> (r.value == Label.Draw <==> l == Label.Draw)
  {
    match l
    case Win => Ok(Lose)
    case Lose => Ok(Win)
    case Draw => Ok(Label.Draw)
    case NotSet => Err(UnexpectedOutcome)
  }

  /** The position a board stands for, read off its fields. */
  function Snapshot(g: Game): (p: Position)
    reads g, g.board
    ensures p == g.Abs()
  {
    Position(g.lines, g.columns, g.sizeWin, g.board[..], g.level, g.gameState)
  }

  // ---------------------------------------------------------------------------
  // The labels as values

  /** Each board of ps is a 3x3 board with one label per cell in ls. */
  ghost predicate Fit(ps: seq<Position>, ls: seq<seq<Label>>) {
    |ls| == |ps| && forall b :: 0 <= b < |ps| ==> Grid(ps[b]) && |ls[b]| == 9
  }

  /**
   * The label of cell j of board p, which holds l: an occupied cell, or an empty one
   * whose child no board of the next layer equals up to symmetry, keeps l; otherwise
   * the cell gets the inverted outcome of the first board of the next layer equal to
   * the child, nl holding the labels of the next layer.
   */
  ghost function CellLabel(p: Position, j: int, l: Label, next: seq<Position>, nl: seq<seq<Label>>,
                           outcome: (Position, seq<Label>) -> Label): Result<Label>
    requires Grid(p) && 0 <= j < 9 && |nl| == |next|
  {
    if p.cells[j] != Empty then Ok(l)
    else
      match FirstCover(Moved(p, j), next)
      case None => Ok(l)
      case Some(c) => Invert(outcome(next[c], nl[c]))
  }

  /** The labels ls of board p after cells 0 .. j - 1 have been labelled in order. */
  ghost function Relabel(p: Position, ls: seq<Label>, next: seq<Position>, nl: seq<seq<Label>>,
                         outcome: (Position, seq<Label>) -> Label, j: int): (r: Result<seq<Label>>)
    requires Grid(p) && |ls| == 9 && 0 <= j <= 9 && |nl| == |next|
    ensures r.Ok? ==> |r.value| == 9
  {
    if j == 0 then Ok(ls)
    else
      match Relabel(p, ls, next, nl, outcome, j - 1)
      case Err(e) => Err(e)
      case Ok(cur) =>
        match CellLabel(p, j - 1, cur[j - 1], next, nl, outcome)
        case Err(e) => Err(e)
        case Ok(l) => Ok(cur[j - 1 := l])
  }

  /** The labels of board p: unchanged when p already has an outcome, else every cell relabelled. */
  ghost function NodeLabels(p: Position, ls: seq<Label>, next: seq<Position>, nl: seq<seq<Label>>,
                            outcome: (Position, seq<Label>) -> Label): (r: Result<seq<Label>>)
    requires Grid(p) && |ls| == 9 && |nl| == |next|
    ensures r.Ok? ==> |r.value| == 9
  {
    if outcome(p, ls) != NotSet then Ok(ls) else Relabel(p, ls, next, nl, outcome, |ls|)
  }

  /** The labels ls of layer ps after its boards 0 .. a - 1 have been labelled in order. */
  ghost function LayerLabels(ps: seq<Position>, ls: seq<seq<Label>>, next: seq<Position>,
                             nl: seq<seq<Label>>, outcome: (Position, seq<Label>) -> Label, a: int)
    : (r: Result<seq<seq<Label>>>)
    requires Fit(ps, ls) && |nl| == |next| && 0 <= a <= |ps|
    ensures r.Ok? ==> Fit(ps, r.value)
  {
    if a == 0 then Ok(ls)
    else
      match LayerLabels(ps, ls, next, nl, outcome, a - 1)
      case Err(e) => Err(e)
      case Ok(cur) =>
        match NodeLabels(ps[a - 1], cur[a - 1], next, nl, outcome)
        case Err(e) => Err(e)
        case Ok(l) => Ok(cur[a - 1 := l])
  }

  /** The labels every board of ps is created with. */
  ghost function SeedsOf(ps: seq<Position>, seed: (seq<Cell>, nat) -> seq<Label>): (ls: seq<seq<Label>>)
    requires Seeds(seed) && forall b :: 0 <= b < |ps| ==> Grid(ps[b])
    ensures Fit(ps, ls) && forall b :: 0 <= b < |ps| ==> ls[b] == seed(ps[b].cells, ps[b].level)
  {
    seq(|ps|, b requires 0 <= b < |ps| => seed(ps[b].cells, ps[b].level))
  }

  /**
   * The labels of layer k once layers 8 down to k have been labelled: the last layer
   * keeps its seeds, and each layer below is labelled from the final labels of the one
   * above it. Any unlabelled child board met on the way is an error.
   */
  ghost function Resolved(k: nat, outcome: (Position, seq<Label>) -> Label,
                          seed: (seq<Cell>, nat) -> seq<Label>): (r: Result<seq<seq<Label>>>)
    requires k <= 9 && Seeds(seed)
    ensures r.Ok? ==> Fit(Layers(k), r.value)
    decreases 9 - k
  {
    if k == 9 then Ok(SeedsOf(Layers(k), seed))
    else
      match Resolved(k + 1, outcome, seed)
      case Err(e) => Err(e)
      case Ok(nl) => LayerLabels(Layers(k), SeedsOf(Layers(k), seed), Layers(k + 1), nl, outcome, |Layers(k)|)
  }

  /** The labels of all ten layers once layers 8 down to i have been labelled. */
  ghost function Stage(i: nat, outcome: (Position, seq<Label>) -> Label,
                       seed: (seq<Cell>, nat) -> seq<Label>): (s: seq<seq<seq<Label>>>)
    requires i <= 9 && Seeds(seed)
    ensures |s| == 10
  {
    seq(10, k requires 0 <= k < 10 =>
      if k >= i && Resolved(k, outcome, seed).Ok? then Resolved(k, outcome, seed).value
      else SeedsOf(Layers(k), seed))
  }

  // ---------------------------------------------------------------------------
  // What the labels satisfy

  /**
   * Labelling cells 0 .. j - 1 succeeds exactly when each of them gets a label on its
   * own, and then each of them holds that label while the other cells keep theirs.
   */
  lemma {:induction false} RelabelCells(p: Position, ls: seq<Label>, next: seq<Position>, nl: seq<seq<Label>>,
                                        outcome: (Position, seq<Label>) -> Label, j: int)
    requires Grid(p) && |ls| == 9 && 0 <= j <= 9 && |nl| == |next|
    ensures Relabel(p, ls, next, nl, outcome, j).Ok? <==>
      forall c :: 0 <= c < j ==> CellLabel(p, c, ls[c], next, nl, outcome).Ok?
    ensures Relabel(p, ls, next, nl, outcome, j).Ok? ==>
      forall c :: 0 <= c < 9 ==>
        Relabel(p, ls, next, nl, outcome, j).value[c] ==
        (if c < j then CellLabel(p, c, ls[c], next, nl, outcome).value else ls[c])
  {
    if j > 0 {
      RelabelCells(p, ls, next, nl, outcome, j - 1);
    }
  }

  /**
   * Labelling boards 0 .. a - 1 of a layer succeeds exactly when each of them is
   * labelled on its own, and then each of them holds its labels while the other boards
   * keep theirs.
   */
  lemma {:induction false} LayerBoards(ps: seq<Position>, ls: seq<seq<Label>>, next: seq<Position>,
                                       nl: seq<seq<Label>>, outcome: (Position, seq<Label>) -> Label, a: int)
    requires Fit(ps, ls) && |nl| == |next| && 0 <= a <= |ps|
    ensures LayerLabels(ps, ls, next, nl, outcome, a).Ok? <==>
      forall b :: 0 <= b < a ==> NodeLabels(ps[b], ls[b], next, nl, outcome).Ok?
    ensures LayerLabels(ps, ls, next, nl, outcome, a).Ok? ==>
      forall b :: 0 <= b < |ps| ==>
        LayerLabels(ps, ls, next, nl, outcome, a).value[b] ==
        (if b < a then NodeLabels(ps[b], ls[b], next, nl, outcome).value else ls[b])
  {
    if a > 0 {
      LayerBoards(ps, ls, next, nl, outcome, a - 1);
    }
  }

  /** Labelling one more board of a layer: board b still holds its labels until then. */
  lemma LayerNext(ps: seq<Position>, ls: seq<seq<Label>>, next: seq<Position>, nl: seq<seq<Label>>,
                  outcome: (Position, seq<Label>) -> Label, b: int)
    requires Fit(ps, ls) && |nl| == |next| && 0 <= b < |ps| && LayerLabels(ps, ls, next, nl, outcome, b).Ok?
    ensures LayerLabels(ps, ls, next, nl, outcome, b).value[b] == ls[b]
    ensures LayerLabels(ps, ls, next, nl, outcome, b + 1).Ok? <==> NodeLabels(ps[b], ls[b], next, nl, outcome).Ok?
    ensures LayerLabels(ps, ls, next, nl, outcome, b + 1).Ok? ==>
      LayerLabels(ps, ls, next, nl, outcome, b + 1).value ==
        LayerLabels(ps, ls, next, nl, outcome, b).value[b := NodeLabels(ps[b], ls[b], next, nl, outcome).value]
  {
    LayerBoards(ps, ls, next, nl, outcome, b);
  }

  /** An error while labelling a board of a layer stops the labelling of the layer. */
  lemma LayerStops(ps: seq<Position>, ls: seq<seq<Label>>, next: seq<Position>, nl: seq<seq<Label>>,
                   outcome: (Position, seq<Label>) -> Label, a: int)
    requires Fit(ps, ls) && |nl| == |next| && 0 <= a <= |ps| && LayerLabels(ps, ls, next, nl, outcome, a).Err?
    ensures LayerLabels(ps, ls, next, nl, outcome, |ps|).Err?
  {
    LayerBoards(ps, ls, next, nl, outcome, a);
    LayerBoards(ps, ls, next, nl, outcome, |ps|);
  }

  /** An error while labelling layer i stops the whole labelling. */
  lemma {:induction false} ResolvedErr(i: nat, k: nat, outcome: (Position, seq<Label>) -> Label,
                                       seed: (seq<Cell>, nat) -> seq<Label>)
    requires k <= i <= 9 && Seeds(seed) && Resolved(i, outcome, seed).Err?
    ensures Resolved(k, outcome, seed).Err?
    decreases i - k
  {
    if k < i {
      ResolvedErr(i, k + 1, outcome, seed);
      ResolvedUp(k, outcome, seed);
    }
  }

  /** An error in the labels of layer k + 1 is an error in those of layer k. */
  lemma ResolvedUp(k: nat, outcome: (Position, seq<Label>) -> Label, seed: (seq<Cell>, nat) -> seq<Label>)
    requires k < 9 && Seeds(seed) && Resolved(k + 1, outcome, seed).Err?
    ensures Resolved(k, outcome, seed) == Err(Resolved(k + 1, outcome, seed).error)
  {
  }

  /** Labelling succeeds from layer k down only if it succeeded from every layer above. */
  lemma ResolvedAbove(i: nat, k: nat, outcome: (Position, seq<Label>) -> Label,
                      seed: (seq<Cell>, nat) -> seq<Label>)
    requires k <= i <= 9 && Seeds(seed) && Resolved(k, outcome, seed).Ok?
    ensures Resolved(i, outcome, seed).Ok?
  {
    if Resolved(i, outcome, seed).Err? {
      ResolvedErr(i, k, outcome, seed);
    }
  }

  /**
   * What labelling board p, with labels s, from the next layer gives cell j. A board whose
   * outcome is already set keeps s. Otherwise an occupied cell keeps its label, and an
   * empty cell whose child some board of the next layer equals up to symmetry gets a WIN,
   * LOSE or DRAW label: the inverted outcome of the first such board.
   */
  lemma NodeCell(p: Position, s: seq<Label>, next: seq<Position>, nl: seq<seq<Label>>,
                 outcome: (Position, seq<Label>) -> Label, j: int)
    requires Grid(p) && |s| == 9 && |nl| == |next| && 0 <= j < 9
    requires NodeLabels(p, s, next, nl, outcome).Ok?
    ensures var ls := NodeLabels(p, s, next, nl, outcome).value;
      (outcome(p, s) != NotSet ==> ls == s) &&
      (outcome(p, s) == NotSet && p.cells[j] != Empty ==> ls[j] == s[j]) &&
      (outcome(p, s) == NotSet && p.cells[j] == Empty && Covered(Moved(p, j), next) ==>
        ls[j] != NotSet && FirstCover(Moved(p, j), next).Some? &&
        Invert(outcome(next[FirstCover(Moved(p, j), next).value], nl[FirstCover(Moved(p, j), next).value])) ==
          Ok(ls[j]))
  {
    if outcome(p, s) == NotSet {
      RelabelCells(p, s, next, nl, outcome, |s|);
    }
  }

  /** Labelling from layer k down, when it succeeds, labels layer k board by board. */
  lemma ResolvedLayer(k: nat, b: int, outcome: (Position, seq<Label>) -> Label,
                      seed: (seq<Cell>, nat) -> seq<Label>)
    requires k < 9 && Seeds(seed) && Resolved(k, outcome, seed).Ok? && 0 <= b < |Layers(k)|
    ensures Resolved(k + 1, outcome, seed).Ok?
    ensures var p, nl := Layers(k)[b], Resolved(k + 1, outcome, seed).value;
      NodeLabels(p, seed(p.cells, p.level), Layers(k + 1), nl, outcome) ==
        Ok(Resolved(k, outcome, seed).value[b])
  {
    var ps, nl := Layers(k), Resolved(k + 1, outcome, seed).value;
    LayerBoards(ps, SeedsOf(ps, seed), Layers(k + 1), nl, outcome, |ps|);
  }

  /**
   * What the labelling gives board b of layer k < 9, with seed labels s. A board whose
   * outcome is already set keeps s. Otherwise an occupied cell keeps its seed label, and
   * every empty cell of a PLAYING board gets a WIN, LOSE or DRAW label: the inverted
   * outcome of the first board of layer k + 1 equal to its child up to symmetry.
   */
  lemma ResolvedBoard(k: nat, b: int, j: int, outcome: (Position, seq<Label>) -> Label,
                      seed: (seq<Cell>, nat) -> seq<Label>)
    requires k < 9 && Seeds(seed) && Resolved(k, outcome, seed).Ok?
    requires 0 <= b < |Layers(k)| && 0 <= j < 9
    ensures Resolved(k + 1, outcome, seed).Ok?
    ensures
      var p, next := Layers(k)[b], Layers(k + 1);
      var s, ls := seed(p.cells, p.level), Resolved(k, outcome, seed).value[b];
      var nl := Resolved(k + 1, outcome, seed).value;
      (outcome(p, s) != NotSet ==> ls == s) &&
      (outcome(p, s) == NotSet && p.cells[j] != Empty ==> ls[j] == s[j]) &&
      (outcome(p, s) == NotSet && p.cells[j] == Empty && p.state == Playing ==>
        ls[j] != NotSet && FirstCover(Moved(p, j), next).Some? &&
        Invert(outcome(next[FirstCover(Moved(p, j), next).value], nl[FirstCover(Moved(p, j), next).value])) ==
          Ok(ls[j]))
  {
    var p, next := Layers(k)[b], Layers(k + 1);
    ResolvedLayer(k, b, outcome, seed);
    var nl := Resolved(k + 1, outcome, seed).value;
    NodeCell(p, seed(p.cells, p.level), next, nl, outcome, j);
    if p.cells[j] == Empty && p.state == Playing {
      LayerComplete(k + 1);
      assert Covered(Moved(Layers(k)[b], j), next);
    }
  }

  /**
   * The seeds of the last layer are its final labels. The parameter j stands for 9, so
   * that `Stage` is not unfolded from a literal.
   */
  lemma StageTop(j: nat, outcome: (Position, seq<Label>) -> Label, seed: (seq<Cell>, nat) -> seq<Label>)
    requires j == 9 && Seeds(seed)
    ensures forall k :: 0 <= k < 10 ==> Stage(j, outcome, seed)[k] == SeedsOf(Layers(k), seed)
  {
  }

  /**
   * Labelling layer i, from its seeds and the final labels of layer i + 1, gives
   * Resolved(i), and the stage after it.
   */
  lemma StageStep(i: nat, outcome: (Position, seq<Label>) -> Label, seed: (seq<Cell>, nat) -> seq<Label>)
    requires i < 9 && Seeds(seed) && Resolved(i + 1, outcome, seed).Ok?
    ensures var s := Stage(i + 1, outcome, seed);
      s[i] == SeedsOf(Layers(i), seed) && s[i + 1] == Resolved(i + 1, outcome, seed).value &&
      Resolved(i, outcome, seed) ==
        LayerLabels(Layers(i), s[i], Layers(i + 1), s[i + 1], outcome, |Layers(i)|) &&
      (Resolved(i, outcome, seed).Ok? ==> s[i := Resolved(i, outcome, seed).value] == Stage(i, outcome, seed))
  {
    var s := Stage(i + 1, outcome, seed);
    var nl := Resolved(i + 1, outcome, seed).value;
    assert s[i] == SeedsOf(Layers(i), seed);
    assert s[i + 1] == nl;
    assert Resolved(i, outcome, seed) ==
      LayerLabels(Layers(i), SeedsOf(Layers(i), seed), Layers(i + 1), nl, outcome, |Layers(i)|);
    if Resolved(i, outcome, seed).Ok? {
      var t := Stage(i, outcome, seed);
      forall k | 0 <= k < 10 ensures s[i := Resolved(i, outcome, seed).value][k] == t[k] {
      }
    }
  }

  // ---------------------------------------------------------------------------
  // The labels as the boards hold them

  /** The label arrays of every layer. */
  ghost function TierBeads(layers: seq<seq<Node<Label>>>): set<object> {
    set k, b | 0 <= k < |layers| && 0 <= b < |layers[k]| :: layers[k][b].marks
  }

  /** The label arrays of layer i. */
  ghost function LayerBeads(layers: seq<seq<Node<Label>>>, i: int): set<object>
    requires 0 <= i < |layers|
  {
    set b | 0 <= b < |layers[i]| :: layers[i][b].marks
  }

  /** The labels the boards hold, layer by layer. */
  ghost function Tiers(layers: seq<seq<Node<Label>>>): (ts: seq<seq<seq<Label>>>)
    reads TierBeads(layers)
    ensures |ts| == |layers|
    ensures forall k :: 0 <= k < |layers| ==> |ts[k]| == |layers[k]|
    ensures forall k, b :: 0 <= k < |layers| && 0 <= b < |layers[k]| ==> ts[k][b] == layers[k][b].marks[..]
  {
    seq(|layers|, k requires 0 <= k < |layers| reads TierBeads(layers) =>
      seq(|layers[k]|, b requires 0 <= b < |layers[k]| reads TierBeads(layers) => layers[k][b].marks[..]))
  }

  /** Labels equal board by board are the same labels. */
  lemma TiersSame(layers: seq<seq<Node<Label>>>, ts: seq<seq<seq<Label>>>)
    requires |ts| == |layers| && forall k :: 0 <= k < |layers| ==> |ts[k]| == |layers[k]|
    requires forall k, b :: 0 <= k < |layers| && 0 <= b < |layers[k]| ==> layers[k][b].marks[..] == ts[k][b]
    ensures Tiers(layers) == ts
  {
    var t := Tiers(layers);
    forall k | 0 <= k < |layers| ensures t[k] == ts[k] {
    }
  }

  /** Every board but the one holding a still has the labels ts gives it. */
  ghost predicate KeptTiers(layers: seq<seq<Node<Label>>>, a: array<Label>, ts: seq<seq<seq<Label>>>)
    reads TierBeads(layers) - {a}
  {
    |ts| == |layers| && (forall k :: 0 <= k < |layers| ==> |ts[k]| == |layers[k]|) &&
    forall k, b :: 0 <= k < |layers| && 0 <= b < |layers[k]| && layers[k][b].marks != a ==>
      layers[k][b].marks[..] == ts[k][b]
  }

  /** Layer i of the tree stands for Layers(i). */
  lemma TreeLayer(layers: seq<seq<Node<Label>>>, all: seq<Node<Label>>, i: int)
    requires Tree(layers, all) && 0 <= i < 10
    ensures |layers| == 10 && |layers[i]| == |Layers(i)| && Layer(layers[i]) == Layers(i)
  {
    assert Layered(layers)[i] == Stack()[i];
  }

  /** Board b of layer i of the tree stands for Layers(i)[b] and is a valid member of the pool. */
  lemma InTree(layers: seq<seq<Node<Label>>>, all: seq<Node<Label>>, fp: set<object>, i: int, b: int)
    requires Tree(layers, all) && Pool(all, fp) && 0 <= i < 10 && 0 <= b < |layers[i]|
    ensures |layers| == 10 && |layers[i]| == |Layers(i)| && layers[i][b].pos == Layers(i)[b]
    ensures layers[i][b] in all && layers[i][b].Valid() && Layer(layers[i]) == Layers(i)
  {
    TreeLayer(layers, all, i);
    assert Within(layers[i], all);
  }

  /** The labels of layer i < 9 of the tree fit its boards, and layer i + 1 has a label list per board. */
  lemma TiersFit(layers: seq<seq<Node<Label>>>, all: seq<Node<Label>>, fp: set<object>, i: int)
    requires Tree(layers, all) && Pool(all, fp) && 0 <= i < 9
    ensures |layers| == 10 && |layers[i]| == |Layers(i)|
    ensures Fit(Layers(i), Tiers(layers)[i]) && |Tiers(layers)[i + 1]| == |Layers(i + 1)|
  {
    TreeLayer(layers, all, i + 1);
    forall b | 0 <= b < |layers[i]| ensures |Tiers(layers)[i][b]| == 9 {
      InTree(layers, all, fp, i, b);
    }
  }

  /** The label arrays of the tree are those of boards of the pool. */
  lemma TierBeadsIn(layers: seq<seq<Node<Label>>>, all: seq<Node<Label>>)
    requires Tree(layers, all)
    ensures TierBeads(layers) <= Beads(all)
  {
    forall o | o in TierBeads(layers) ensures o in Beads(all) {
      var k, b :| 0 <= k < |layers| && 0 <= b < |layers[k]| && layers[k][b].marks == o;
      assert Within(layers[k], all);
      var x :| 0 <= x < |all| && all[x] == layers[k][b];
    }
  }

  /** Two different boards of the tree hold different label arrays. */
  lemma TierApart(layers: seq<seq<Node<Label>>>, all: seq<Node<Label>>, fp: set<object>, i: int, b: int)
    requires Tree(layers, all) && Pool(all, fp) && 0 <= i < 10 && 0 <= b < |layers[i]|
    ensures forall k, c :: 0 <= k < 10 && 0 <= c < |layers[k]| && (k != i || c != b) ==>
      layers[k][c].marks != layers[i][b].marks
  {
    var n := layers[i][b];
    InTree(layers, all, fp, i, b);
    forall k, c | 0 <= k < 10 && 0 <= c < |layers[k]| && (k != i || c != b)
      ensures layers[k][c].marks != n.marks
    {
      var x := layers[k][c];
      InTree(layers, all, fp, k, c);
      if x == n {
        if k == i {
          LayerDistinct(i);
          SameIsSymEq(Layers(i)[c], Layers(i)[b]);
        }
        assert false;
      }
      var ix :| 0 <= ix < |all| && all[ix] == x;
      var iy :| 0 <= iy < |all| && all[iy] == n;
      if ix < iy { assert all[ix].Repr() !! all[iy].Repr(); } else { assert all[iy].Repr() !! all[ix].Repr(); }
    }
  }

  // ---------------------------------------------------------------------------
  // Labelling the tree

  /**
   * The label cell j of board n gets from the boards of the next layer: an empty cell is
   * played on a fresh copy of n, the copy is compared, as the receiver, with the boards
   * of next in turn, and the outcome of the first equal one is inverted. Any other cell
   * keeps its label l.
   */
  method CellOutcome(n: Node<Label>, j: int, next: seq<Node<Label>>, outcome: (Position, seq<Label>) -> Label,
                     ghost cursors: set<object>)
    returns (r: Result<Label>)
    requires n.Valid() && 0 <= j < 9 && Standing(next, cursors)
    ensures r == CellLabel(n.pos, j, n.marks[j], Layer(next), Marks(next), outcome)
    ensures r.Err? ==> r.error == UnexpectedOutcome
  {
    if n.game.board[j] != Empty {
      return Ok(n.marks[j]);
    }
    var found := ChildMatch(n, j, next, cursors);
    if found.None? {
      return Ok(n.marks[j]);
    }
    var e := next[found.value];
    r := Invert(outcome(Snapshot(e.game), e.marks[..]));
  }

  /**
   * The first board of next equal, up to symmetry, to board n with its empty cell j
   * played: a fresh copy of n is played and compared, as the receiver, with each in turn.
   */
  method ChildMatch(n: Node<Label>, j: int, next: seq<Node<Label>>, ghost cursors: set<object>)
    returns (found: Option<int>)
    requires n.Valid() && 0 <= j < 9 && n.pos.cells[j] == Empty && Standing(next, cursors)
    ensures found == FirstCover(Moved(n.pos, j), Layer(next))
  {
    var g := new Game.WithMove(n.game, j);
    found := FirstMatch(g, next);
  }

  /** Labels cell j of board n from the boards of the next layer; only that label of n changes. */
  method LabelCell(n: Node<Label>, j: int, next: seq<Node<Label>>, outcome: (Position, seq<Label>) -> Label,
                   ghost cursors: set<object>)
    returns (err: Option<Error>)
    requires n.Valid() && 0 <= j < 9 && Standing(next, cursors) && n.marks !in Beads(next)
    modifies n.marks
    ensures var want := CellLabel(n.pos, j, old(n.marks[j]), Layer(next), old(Marks(next)), outcome);
      (err.None? <==> want.Ok?) && (err.Some? ==> err == Some(UnexpectedOutcome)) &&
      n.marks[..] == if err.None? then old(n.marks[..])[j := want.value] else old(n.marks[..])
  {
    var l := CellOutcome(n, j, next, outcome, cursors);
    if l.Err? {
      return Some(l.error);
    }
    n.marks[j] := l.value;
    return None;
  }

  /**
   * Labels board n from the boards of the next layer, when it has no outcome yet, cell
   * by cell in order. Only the labels of n change.
   */
  method LabelNode(n: Node<Label>, next: seq<Node<Label>>, outcome: (Position, seq<Label>) -> Label,
                   ghost cursors: set<object>)
    returns (err: Option<Error>)
    requires n.Valid() && Standing(next, cursors) && n.marks !in cursors && n.marks !in Beads(next)
    modifies n.marks
    ensures var want := NodeLabels(n.pos, old(n.marks[..]), Layer(next), old(Marks(next)), outcome);
      (err.None? <==> want.Ok?) && (err.Some? ==> err == Some(UnexpectedOutcome)) &&
      (err.None? ==> n.marks[..] == want.value)
  {
    ghost var p, ls, nl := n.pos, n.marks[..], Marks(next);
    if outcome(Snapshot(n.game), n.marks[..]) != NotSet {
      return None;
    }
    var j := 0;
    while j < 9
      invariant 0 <= j <= 9 && n.Valid() && Standing(next, cursors) && Marks(next) == nl
      invariant Relabel(p, ls, Layer(next), nl, outcome, j) == Ok(n.marks[..])
    {
      err := LabelCell(n, j, next, outcome, cursors);
      if err.Some? {
        RelabelCells(p, ls, Layer(next), nl, outcome, j + 1);
        RelabelCells(p, ls, Layer(next), nl, outcome, |ls|);
        return;
      }
      j := j + 1;
    }
    err := None;
  }

  /**
   * Board b of layer i < 9 of the tree can be labelled from layer i + 1 without touching
   * the boards of that layer or any label but its own.
   */
  lemma Ready(layers: seq<seq<Node<Label>>>, all: seq<Node<Label>>, fp: set<object>, i: int, b: int)
    requires Tree(layers, all) && Pool(all, fp) && 0 <= i < 9 && 0 <= b < |layers[i]|
    ensures var n, next, cursors := layers[i][b], layers[i + 1], fp - Beads(all);
      n.Valid() && n.pos == Layers(i)[b] && Layer(next) == Layers(i + 1) &&
      Standing(next, cursors) && n.marks !in cursors && n.marks !in Beads(next) &&
      Marks(next) == Tiers(layers)[i + 1] && KeptTiers(layers, n.marks, Tiers(layers)) &&
      Standing(all, cursors) && cursors <= fp &&
      (forall x :: 0 <= x < |all| ==> all[x].Repr() <= fp) &&
      (forall x, y :: 0 <= x < y < |all| ==> all[x].Repr() !! all[y].Repr()) &&
      forall k, c :: 0 <= k < |layers| && 0 <= c < |layers[k]| && (k != i || c != b) ==>
        layers[k][c].marks != n.marks
  {
    var n, next, cursors := layers[i][b], layers[i + 1], fp - Beads(all);
    InTree(layers, all, fp, i, b);
    TierApart(layers, all, fp, i, b);
    BeadsApart(all, fp);
    forall c | 0 <= c < |next| ensures next[c].Valid() && next[c].game.Repr() <= cursors {
      InTree(layers, all, fp, i + 1, c);
    }
    assert n.marks in Beads(all);
    assert n.marks !in Beads(next);
    assert Marks(next) == Tiers(layers)[i + 1];
  }

  /** The labels of the tree after the labels of board b of layer i alone became v. */
  lemma Relabelled(layers: seq<seq<Node<Label>>>, ts: seq<seq<seq<Label>>>, i: int, b: int, v: seq<Label>)
    requires 0 <= i < |layers| && 0 <= b < |layers[i]| && KeptTiers(layers, layers[i][b].marks, ts)
    requires forall k, c :: 0 <= k < |layers| && 0 <= c < |layers[k]| && (k != i || c != b) ==>
      layers[k][c].marks != layers[i][b].marks
    requires layers[i][b].marks[..] == v
    ensures Tiers(layers) == ts[i := ts[i][b := v]]
  {
    TiersSame(layers, ts[i := ts[i][b := v]]);
  }

  /**
   * Labels board b of layer i < 9 of the tree from layer i + 1; the labels of every
   * other board stay as they were.
   */
  method LabelAt(layers: seq<seq<Node<Label>>>, i: int, b: int, ghost all: seq<Node<Label>>,
                 ghost fp: set<object>, outcome: (Position, seq<Label>) -> Label)
    returns (err: Option<Error>)
    requires Tree(layers, all) && Pool(all, fp) && 0 <= i < 9 && 0 <= b < |layers[i]|
    modifies layers[i][b].marks
    ensures Pool(all, fp)
    ensures var ts := old(Tiers(layers));
      var want := NodeLabels(Layers(i)[b], ts[i][b], Layers(i + 1), ts[i + 1], outcome);
      (err.None? <==> want.Ok?) && (err.Some? ==> err == Some(UnexpectedOutcome)) &&
      (err.None? ==> Tiers(layers) == ts[i := ts[i][b := want.value]])
  {
    var n, next := layers[i][b], layers[i + 1];
    ghost var ts := Tiers(layers);
    ghost var cursors := fp - Beads(all);
    Ready(layers, all, fp, i, b);
    hide Pool;
    hide KeptTiers;
    err := LabelNode(n, next, outcome, cursors);
    StandingPool(all, fp, cursors);
    if err.None? {
      Relabelled(layers, ts, i, b, n.marks[..]);
    }
  }

  /**
   * Layer i < 9 of the tree is labelled up to board b: the labels of the tree are those
   * of its first b boards labelled from layer i + 1, ts holding the labels before the
   * layer was started.
   */
  ghost predicate LabelledTo(layers: seq<seq<Node<Label>>>, all: seq<Node<Label>>, fp: set<object>,
                             outcome: (Position, seq<Label>) -> Label, ts: seq<seq<seq<Label>>>, i: int, b: int)
    reads fp, TierBeads(layers)
  {
    Tree(layers, all) && Pool(all, fp) && 0 <= i < 9 &&
    |ts| == 10 && Fit(Layers(i), ts[i]) && |ts[i + 1]| == |Layers(i + 1)| && 0 <= b <= |Layers(i)| &&
    LayerLabels(Layers(i), ts[i], Layers(i + 1), ts[i + 1], outcome, b).Ok? &&
    Tiers(layers) == ts[i := LayerLabels(Layers(i), ts[i], Layers(i + 1), ts[i + 1], outcome, b).value]
  }

  /** Before its first board, a layer is labelled up to board 0. */
  lemma LabelledFrom(layers: seq<seq<Node<Label>>>, all: seq<Node<Label>>, fp: set<object>,
                     outcome: (Position, seq<Label>) -> Label, ts: seq<seq<seq<Label>>>, i: int)
    requires Tree(layers, all) && Pool(all, fp) && 0 <= i < 9 && Tiers(layers) == ts
    ensures |layers| == 10 && |layers[i]| == |Layers(i)| && |ts| == 10
    ensures Fit(Layers(i), ts[i]) && |ts[i + 1]| == |Layers(i + 1)|
    ensures LabelledTo(layers, all, fp, outcome, ts, i, 0)
  {
    TiersFit(layers, all, fp, i);
    assert ts[i := ts[i]] == ts;
  }

  /** Once past its last board, a layer is labelled. */
  lemma LabelledDone(layers: seq<seq<Node<Label>>>, all: seq<Node<Label>>, fp: set<object>,
                     outcome: (Position, seq<Label>) -> Label, ts: seq<seq<seq<Label>>>, i: int, b: int)
    requires LabelledTo(layers, all, fp, outcome, ts, i, b) && b == |Layers(i)|
    ensures Pool(all, fp)
    ensures var want := LayerLabels(Layers(i), ts[i], Layers(i + 1), ts[i + 1], outcome, |Layers(i)|);
      want.Ok? && Tiers(layers) == ts[i := want.value]
  {
  }

  /**
   * Labels board b of layer i < 9 of the tree once boards 0 .. b - 1 are labelled: the
   * labels of the tree then are those of the first b + 1 boards labelled.
   */
  method LabelNext(layers: seq<seq<Node<Label>>>, i: int, b: int, ghost all: seq<Node<Label>>,
                   ghost fp: set<object>, outcome: (Position, seq<Label>) -> Label, ghost ts: seq<seq<seq<Label>>>)
    returns (err: Option<Error>)
    requires LabelledTo(layers, all, fp, outcome, ts, i, b) && b < |layers[i]|
    modifies layers[i][b].marks
    ensures Pool(all, fp) && b < |Layers(i)|
    ensures var want := LayerLabels(Layers(i), ts[i], Layers(i + 1), ts[i + 1], outcome, b + 1);
      (err.None? <==> want.Ok?) && (err.Some? ==> err == Some(UnexpectedOutcome))
    ensures err.None? ==> LabelledTo(layers, all, fp, outcome, ts, i, b + 1)
  {
    TreeLayer(layers, all, i);
    LayerNext(Layers(i), ts[i], Layers(i + 1), ts[i + 1], outcome, b);
    err := LabelAt(layers, i, b, all, fp, outcome);
  }

  /**
   * Labels the boards of layer i < 9 of the tree in order from layer i + 1; the labels
   * of the other layers stay as they were.
   */
  method LabelLayer(layers: seq<seq<Node<Label>>>, i: int, ghost all: seq<Node<Label>>,
                    ghost fp: set<object>, outcome: (Position, seq<Label>) -> Label, ghost ts: seq<seq<seq<Label>>>)
    returns (err: Option<Error>)
    requires |layers| == 10 && Tree(layers, all) && Pool(all, fp) && 0 <= i < 9 && Tiers(layers) == ts
    modifies LayerBeads(layers, i)
    ensures Pool(all, fp) && |ts| == 10 && Fit(Layers(i), ts[i]) && |ts[i + 1]| == |Layers(i + 1)|
    ensures var want := LayerLabels(Layers(i), ts[i], Layers(i + 1), ts[i + 1], outcome, |Layers(i)|);
      (err.None? <==> want.Ok?) && (err.Some? ==> err == Some(UnexpectedOutcome)) &&
      (err.None? ==> Tiers(layers) == ts[i := want.value])
  {
    LabelledFrom(layers, all, fp, outcome, ts, i);
    ghost var ps, next, ls, nl := Layers(i), Layers(i + 1), ts[i], ts[i + 1];
    hide LabelledTo;
    var b := 0;
    while b < |layers[i]|
      invariant 0 <= b <= |ps| && LabelledTo(layers, all, fp, outcome, ts, i, b)
    {
      err := LabelNext(layers, i, b, all, fp, outcome, ts);
      if err.Some? {
        LayerStops(ps, ls, next, nl, outcome, b + 1);
        return;
      }
      b := b + 1;
    }
    LabelledDone(layers, all, fp, outcome, ts, i, b);
    err := None;
  }

  /**
   * Before any layer is labelled, every board holds its seed labels. The parameter j
   * stands for 9, so that `Stage` is not unfolded from a literal.
   */
  lemma Seeded(layers: seq<seq<Node<Label>>>, all: seq<Node<Label>>, fp: set<object>, j: nat,
               outcome: (Position, seq<Label>) -> Label, seed: (seq<Cell>, nat) -> seq<Label>)
    requires j == 9 && Tree(layers, all) && Pool(all, fp) && Seeds(seed) && Decorated(all, fp, seed)
    ensures Tiers(layers) == Stage(j, outcome, seed)
  {
    var s := Stage(j, outcome, seed);
    StageTop(j, outcome, seed);
    forall k | 0 <= k < 10 ensures |s[k]| == |layers[k]| {
      TreeLayer(layers, all, k);
    }
    forall k, b | 0 <= k < |layers| && 0 <= b < |layers[k]| ensures layers[k][b].marks[..] == s[k][b] {
      InTree(layers, all, fp, k, b);
      var x :| 0 <= x < |all| && all[x] == layers[k][b];
    }
    TiersSame(layers, s);
  }

  /** Once the layers from j up are labelled, the labels of each layer k >= j are Resolved(k). */
  lemma StageFinal(j: nat, outcome: (Position, seq<Label>) -> Label, seed: (seq<Cell>, nat) -> seq<Label>)
    requires j <= 9 && Seeds(seed) && Resolved(j, outcome, seed).Ok?
    ensures forall k :: j <= k < 10 ==>
      Resolved(k, outcome, seed).Ok? && Stage(j, outcome, seed)[k] == Resolved(k, outcome, seed).value
  {
    forall k | j <= k < 10 ensures Resolved(k, outcome, seed).Ok? {
      ResolvedAbove(k, j, outcome, seed);
    }
  }

  /** Labels layer i < 9 of the tree once the layers above it are labelled. */
  method LabelBelow(layers: seq<seq<Node<Label>>>, i: int, ghost all: seq<Node<Label>>, ghost fp: set<object>,
                    outcome: (Position, seq<Label>) -> Label, ghost seed: (seq<Cell>, nat) -> seq<Label>)
    returns (err: Option<Error>)
    requires |layers| == 10 && Tree(layers, all) && Pool(all, fp) && Seeds(seed) && 0 <= i < 9
    requires Resolved(i + 1, outcome, seed).Ok? && Tiers(layers) == Stage(i + 1, outcome, seed)
    modifies LayerBeads(layers, i)
    ensures Pool(all, fp)
    ensures (err.None? <==> Resolved(i, outcome, seed).Ok?) && (err.Some? ==> err == Some(UnexpectedOutcome))
    ensures err.None? ==> Tiers(layers) == Stage(i, outcome, seed)
  {
    StageStep(i, outcome, seed);
    err := LabelLayer(layers, i, all, fp, outcome, Tiers(layers));
  }

  /**
   * Labels the layers of the tree from layer 8 down to layer 0, each from the final labels
   * of the layer above it; the boards hold their seed labels before.
   */
  method LabelAll(layers: seq<seq<Node<Label>>>, ghost all: seq<Node<Label>>, ghost fp: set<object>,
                  outcome: (Position, seq<Label>) -> Label, ghost seed: (seq<Cell>, nat) -> seq<Label>)
    returns (err: Option<Error>)
    requires |layers| == 10 && Tree(layers, all) && Pool(all, fp) && Seeds(seed) && Decorated(all, fp, seed)
    modifies TierBeads(layers)
    ensures Pool(all, fp)
    ensures (err.None? <==> forall k :: 0 <= k < 10 ==> Resolved(k, outcome, seed).Ok?)
    ensures err.Some? ==> err == Some(UnexpectedOutcome)
    ensures err.None? ==> forall k :: 0 <= k < 10 ==> Tiers(layers)[k] == Resolved(k, outcome, seed).value
  {
    var i := 8;
    Seeded(layers, all, fp, i + 1, outcome, seed);
    while i >= 0
      invariant -1 <= i <= 8 && Pool(all, fp)
      invariant Resolved(i + 1, outcome, seed).Ok? && Tiers(layers) == Stage(i + 1, outcome, seed)
    {
      err := LabelBelow(layers, i, all, fp, outcome, seed);
      if err.Some? {
        return;
      }
      i := i - 1;
    }
    StageFinal(i + 1, outcome, seed);
    err := None;
  }

  // ---------------------------------------------------------------------------
  // The player

  class Player {
    /** The ten layers of distinct boards, layer i holding the boards i moves into a game. */
    const layers: seq<seq<Node<Label>>>
    /** Every board of the tree, and the objects they are made of. */
    ghost const all: seq<Node<Label>>
    ghost const fp: set<object>
    /** The outcome of a board with given labels, and the move chosen from a board's labels and view. */
    const outcome: (Position, seq<Label>) -> Label
    const choose: (Position, seq<Label>, seq<int>) -> int

    ghost predicate Valid()
      reads fp
    {
      Tree(layers, all) && Pool(all, fp)
    }

    /** A player over a built tree. */
    constructor (layers: seq<seq<Node<Label>>>, ghost all: seq<Node<Label>>, ghost fp: set<object>,
                 outcome: (Position, seq<Label>) -> Label, choose: (Position, seq<Label>, seq<int>) -> int)
      requires Tree(layers, all) && Pool(all, fp)
      ensures this.layers == layers && this.all == all && this.fp == fp
      ensures this.outcome == outcome && this.choose == choose && Valid()
    {
      this.layers, this.all, this.fp := layers, all, fp;
      this.outcome, this.choose := outcome, choose;
    }

    /**
     * Builds the tree with every board seeded, then labels it from layer 8 down: the
     * player exists exactly when no unlabelled child board is met, and then layer k holds
     * the labels Resolved(k).
     */
    static method Create(outcome: (Position, seq<Label>) -> Label, choose: (Position, seq<Label>, seq<int>) -> int,
                         seed: (seq<Cell>, nat) -> seq<Label>)
      returns (r: Result<Player>)
      requires Seeds(seed)
      ensures (r.Ok? <==> forall k :: 0 <= k < 10 ==> Resolved(k, outcome, seed).Ok?)
      ensures r.Err? ==> r.error == UnexpectedOutcome
      ensures r.Ok? ==>
        r.value.Valid() && r.value.outcome == outcome && r.value.choose == choose &&
        |r.value.layers| == 10 &&
        forall k :: 0 <= k < 10 ==> Tiers(r.value.layers)[k] == Resolved(k, outcome, seed).value
    {
      var layers, all, fp := Build(seed);
      TreeLayer(layers, all, 0);
      TierBeadsIn(layers, all);
      var err := LabelAll(layers, all, fp, outcome, seed);
      if err.Some? {
        return Err(err.value);
      }
      var p := new Player(layers, all, fp, outcome, choose);
      r := Ok(p);
    }

    /**
     * Plays the perfect move on the live board: the board of the tree that stands for it
     * is looked up, and the move chosen from that board's labels and its view of the live
     * board is played. The labels stay as they were.
     */
    method Play(live: Game) returns (err: Option<Error>, ghost at: int)
      requires Valid() && live.Valid() && live.Repr() !! fp
      modifies fp, live`level, live`gameState, live.board
      ensures Valid() && live.Valid() && Marks(all) == old(Marks(all))
      ensures old(live.level) == live.lines * live.columns ==> err == Some(GameFinishedAlready)
      ensures old(live.level) != live.lines * live.columns && old(live.level) >= 10 ==>
        err == Some(IndexOutOfBounds)
      ensures old(live.level) != live.lines * live.columns && old(live.level) < 10 &&
              !Represented(Layers(old(live.level)), old(live.Abs())) ==>
        err == Some(GameNotFound)
      ensures err.Some? ==> live.Abs() == old(live.Abs())
      ensures old(live.level) != live.lines * live.columns && old(live.level) < 10 &&
              Represented(Layers(old(live.level)), old(live.Abs())) ==>
        var k := old(live.level);
        0 <= at < |layers[k]| &&
          SymEq(Layers(k)[at], old(live.Abs())) && !Represented(Layers(k)[..at], old(live.Abs())) &&
          var n := layers[k][at];
          Matches(n.pos.cells, old(live.Abs()).cells, n.game.transformedBoard[..]) &&
          var m := choose(n.pos, n.marks[..], n.game.transformedBoard[..]);
          (err.None? <==> 0 <= m < live.lines * live.columns && old(live.Abs()).cells[m] == Empty) &&
          (err.None? ==> live.Abs() == Moved(old(live.Abs()), m))
    {
      hide Pool;
      hide Tree;
      var found := Locate(live);
      if found.Err? {
        return Some(found.error), -1;
      }
      at := found.value;
      var n := layers[live.level][found.value];
      err := Respond(n, live);
    }

    /**
     * Finds the board of the tree that stands for the live board, as a position in the
     * layer at the live board's level, its view left mapping the live board onto it; only
     * cursors of that layer's boards move.
     */
    method Locate(live: Game) returns (r: Result<int>)
      requires Valid() && live.Valid() && live.Repr() !! fp
      modifies fp
      ensures Valid() && live.Valid() && live.Abs() == old(live.Abs()) && Marks(all) == old(Marks(all))
      ensures forall i :: 0 <= i < |all| && all[i].pos.level != live.level ==>
        all[i].game.transformedBoard[..] == old(all[i].game.transformedBoard[..])
      ensures live.level == live.lines * live.columns ==> r == Err(GameFinishedAlready)
      ensures live.level != live.lines * live.columns && live.level >= 10 ==> r == Err(IndexOutOfBounds)
      ensures live.level != live.lines * live.columns && live.level < 10 ==>
        (r.Err? <==> !Represented(Layers(live.level), live.Abs())) && (r.Err? ==> r.error == GameNotFound)
      ensures r.Ok? ==> var k, b := live.level, r.value;
        k < 10 == |layers| && 0 <= b < |layers[k]| && layers[k][b].Valid() && live.Repr() !! layers[k][b].Repr() &&
        SymEq(Layers(k)[b], live.Abs()) && !Represented(Layers(k)[..b], live.Abs()) &&
        layers[k][b].pos == Layers(k)[b] &&
        Matches(Layers(k)[b].cells, live.Abs().cells, layers[k][b].game.transformedBoard[..])
    {
      ghost var ms := Marks(all);
      r := Lookup(layers, live, all, fp);
      MarksSame(all, ms);
      if r.Ok? {
        InTree(layers, all, fp, live.level, r.value);
      }
    }

    /**
     * Plays on the live board the move chosen from board n's labels and its view of the
     * live board; nothing else changes.
     */
    method Respond(n: Node<Label>, live: Game) returns (err: Option<Error>)
      requires n.Valid() && live.Valid() && live.Repr() !! n.Repr()
      modifies live`level, live`gameState, live.board
      ensures live.Valid()
      ensures var m := choose(n.pos, n.marks[..], n.game.transformedBoard[..]);
        (err.None? <==> 0 <= m < live.lines * live.columns && old(live.Abs()).cells[m] == Empty) &&
        (err.None? ==> live.Abs() == Moved(old(live.Abs()), m)) &&
        (err.Some? ==> live.Abs() == old(live.Abs()))
    {
      err := live.Play(choose(Snapshot(n.game), n.marks[..], n.game.transformedBoard[..]));
    }
  }
}
