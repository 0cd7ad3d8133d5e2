/**
 * The layered game tree both computer players build for 3x3 tic-tac-toe with three
 * in a row. Layer i holds one board for each class of positions reachable in i
 * moves, where two positions are in the same class when they are equal up to
 * rotation and reflection. Only PLAYING boards are expanded, and a child joins its
 * layer only when no board already there equals it up to symmetry.
 *
 * The tree is specified as pure values (Layers) and built imperatively (Build) out of
 * boards that carry a per-cell decoration: MENACE's beads or the perfect player's
 * outcome labels.
 */
module GameTree {
  import opened Wrappers
  import opened Rules
  import opened Symmetry
  import opened TicTacToe

  // ---------------------------------------------------------------------------
  // The tree as values

  /** A 3x3 board with three in a row whose ply counter counts its occupied cells. */
  ghost predicate Grid(p: Position) {
    WellShaped(p) && p.lines == 3 && p.columns == 3 && p.sizeWin == 3 &&
    p.level == Occupied(p.cells)
  }

  /** Every position of ps is such a board, n moves into the game. */
  ghost predicate AtLevel(ps: seq<Position>, n: int) {
    forall b :: 0 <= b < |ps| ==> Grid(ps[b]) && ps[b].level == n
  }

  /** Some member of layer equals x up to symmetry, x being the one compared. */
  ghost predicate Covered(x: Position, layer: seq<Position>) {
    exists b {:trigger SymEq(x, layer[b])} :: 0 <= b < |layer| && SymEq(x, layer[b])
  }

  /**
   * The index of the first member of layer that x equals up to symmetry, x being the
   * one compared, if there is one.
   */
  ghost function FirstCover(x: Position, layer: seq<Position>): (r: Option<nat>)
    ensures r.None? <==> !Covered(x, layer)
    ensures r.Some? ==> r.value < |layer| && SymEq(x, layer[r.value]) && !Covered(x, layer[..r.value])
    decreases |layer|
  {
    if |layer| == 0 then None
    else
      var init := layer[..|layer| - 1];
      var r := FirstCover(x, init);
      if r.Some? then
        assert init[..r.value] == layer[..r.value] && init[r.value] == layer[r.value];
        r
      else if SymEq(x, layer[|layer| - 1]) then
        assert init == layer[..|layer| - 1];
        Some(|layer| - 1)
      else
        assert !Covered(x, layer) by {
          forall b | 0 <= b < |layer| ensures !SymEq(x, layer[b]) {
            if b < |layer| - 1 { assert init[b] == layer[b]; }
          }
        }
        None
  }

  /** A member equal to x up to symmetry, with none before it, is the first cover. */
  lemma FirstCoverAt(x: Position, layer: seq<Position>, b: int)
    requires 0 <= b < |layer| && SymEq(x, layer[b]) && !Covered(x, layer[..b])
    ensures FirstCover(x, layer) == Some(b)
  {
    CoveredAt(x, layer, b);
    var r := FirstCover(x, layer).value;
    CoveredPrefix(x, layer, b, r);
    CoveredPrefix(x, layer, r, b);
  }

  /** A member before position n covers x within the first n members. */
  lemma CoveredPrefix(x: Position, layer: seq<Position>, b: int, n: int)
    requires 0 <= b < |layer| && 0 <= n <= |layer| && SymEq(x, layer[b])
    ensures b < n ==> Covered(x, layer[..n])
  {
    if b < n {
      assert layer[..n][b] == layer[b];
      CoveredAt(x, layer[..n], b);
    }
  }

  /** x joins the layer unless a member already equals it up to symmetry. */
  ghost function AddUnique(layer: seq<Position>, x: Position): seq<Position> {
    if Covered(x, layer) then layer else layer + [x]
  }

  /** t starts with s. */
  ghost predicate Extends<T>(s: seq<T>, t: seq<T>) {
    |s| <= |t| && forall k :: 0 <= k < |s| ==> t[k] == s[k]
  }

  /**
   * The layer acc after offering it the children of p at cells 0 .. j - 1, in cell
   * order; a board that is no longer PLAYING has no children.
   */
  ghost function Expand(acc: seq<Position>, p: Position, j: int): (r: seq<Position>)
    requires Grid(p) && 0 <= j <= 9 && AtLevel(acc, p.level + 1)
    ensures AtLevel(r, p.level + 1) && Extends(acc, r)
  {
    if j == 0 || p.state != Playing then acc
    else
      var rest := Expand(acc, p, j - 1);
      if p.cells[j - 1] == Empty then
        OccupiedFill(p.cells, j - 1, Mover(p.level));
        AddUnique(rest, Moved(p, j - 1))
      else rest
  }

  /** The next layer after offering it the children of prev[0 .. a - 1], in order. */
  ghost function NextLayer(prev: seq<Position>, n: nat, a: int): (r: seq<Position>)
    requires AtLevel(prev, n) && 0 <= a <= |prev|
    ensures AtLevel(r, n + 1)
  {
    if a == 0 then [] else Expand(NextLayer(prev, n, a - 1), prev[a - 1], 9)
  }

  /** Layer i of the tree: the empty board, then each layer built from the one before. */
  ghost function Layers(i: nat): (ps: seq<Position>)
    requires i <= 9
    ensures AtLevel(ps, i)
  {
    if i == 0 then
      var root := Initial(3, 3, 3);
      OccupiedNone(root.cells, 9);
      [root]
    else
      NextLayer(Layers(i - 1), i - 1, |Layers(i - 1)|)
  }

  // ---------------------------------------------------------------------------
  // What the tree satisfies

  /** q is the board after one move at an empty cell of the PLAYING board p. */
  ghost predicate ChildOf(p: Position, q: Position) {
    Grid(p) && p.state == Playing &&
    exists c :: 0 <= c < 9 && p.cells[c] == Empty && q == Moved(p, c)
  }

  /** Every board of cur is a child of some board of prev. */
  ghost predicate Sound(prev: seq<Position>, cur: seq<Position>) {
    forall b :: 0 <= b < |cur| ==> exists a :: 0 <= a < |prev| && ChildOf(prev[a], cur[b])
  }

  /** Every child of a PLAYING board of prev is equal up to symmetry to a board of cur. */
  ghost predicate Complete(prev: seq<Position>, cur: seq<Position>) {
    forall a, c ::
      (0 <= a < |prev| && Grid(prev[a]) && prev[a].state == Playing &&
       0 <= c < 9 && prev[a].cells[c] == Empty) ==> Covered(Moved(prev[a], c), cur)
  }

  /** No board of the layer equals an earlier one up to symmetry. */
  ghost predicate Distinct(cur: seq<Position>) {
    forall a, b :: 0 <= a < b < |cur| ==> !SymEq(cur[b], cur[a])
  }

  /** A board covered by a layer stays covered when the layer grows at its end. */
  lemma CoveredGrows(x: Position, s: seq<Position>, t: seq<Position>)
    requires Extends(s, t) && Covered(x, s)
    ensures Covered(x, t)
  {
    var b :| 0 <= b < |s| && SymEq(x, s[b]);
    assert t[b] == s[b];
  }

  /** Every board Expand adds is a child of p. */
  lemma {:induction false} ExpandSound(acc: seq<Position>, p: Position, j: int)
    requires Grid(p) && 0 <= j <= 9 && AtLevel(acc, p.level + 1)
    ensures forall b :: |acc| <= b < |Expand(acc, p, j)| ==> ChildOf(p, Expand(acc, p, j)[b])
  {
    if j > 0 && p.state == Playing {
      var rest := Expand(acc, p, j - 1);
      ExpandSound(acc, p, j - 1);
      if p.cells[j - 1] == Empty && !Covered(Moved(p, j - 1), rest) {
        var r := Expand(acc, p, j);
        assert r == rest + [Moved(p, j - 1)];
        forall b | |acc| <= b < |r| ensures ChildOf(p, r[b]) {
          if b == |rest| {
            assert 0 <= j - 1 < 9 && p.cells[j - 1] == Empty && r[b] == Moved(p, j - 1);
          } else {
            assert r[b] == rest[b];
          }
        }
      }
    }
  }

  /** After Expand, every child of a PLAYING p at the cells offered is covered. */
  lemma {:induction false} ExpandComplete(acc: seq<Position>, p: Position, j: int)
    requires Grid(p) && 0 <= j <= 9 && AtLevel(acc, p.level + 1) && p.state == Playing
    ensures forall c :: 0 <= c < j && p.cells[c] == Empty ==> Covered(Moved(p, c), Expand(acc, p, j))
  {
    if j > 0 {
      var rest := Expand(acc, p, j - 1);
      var r := Expand(acc, p, j);
      ExpandComplete(acc, p, j - 1);
      if p.cells[j - 1] == Empty {
        AddUniqueCovers(rest, Moved(p, j - 1));
      }
      forall c | 0 <= c < j - 1 && p.cells[c] == Empty ensures Covered(Moved(p, c), r) {
        CoveredGrows(Moved(p, c), rest, r);
      }
    }
  }

  /** The board offered to a layer is covered by the layer afterwards. */
  lemma AddUniqueCovers(layer: seq<Position>, x: Position)
    requires WellShaped(x)
    ensures Covered(x, AddUnique(layer, x))
  {
    if !Covered(x, layer) {
      SameIsSymEq(x, x);
      CoveredAt(x, layer + [x], |layer|);
    }
  }

  /** Expand keeps a layer free of boards equal up to symmetry. */
  lemma {:induction false} ExpandDistinct(acc: seq<Position>, p: Position, j: int)
    requires Grid(p) && 0 <= j <= 9 && AtLevel(acc, p.level + 1) && Distinct(acc)
    ensures Distinct(Expand(acc, p, j))
  {
    if j > 0 && p.state == Playing {
      var rest := Expand(acc, p, j - 1);
      ExpandDistinct(acc, p, j - 1);
      if p.cells[j - 1] == Empty && !Covered(Moved(p, j - 1), rest) {
        var r := Expand(acc, p, j);
        forall a, b | 0 <= a < b < |r| ensures !SymEq(r[b], r[a]) {
          if b == |rest| {
            assert r[a] == rest[a];
          } else {
            assert r[b] == rest[b] && r[a] == rest[a];
          }
        }
      }
    }
  }

  /** Every board of the next layer is a child of one of the boards offered. */
  lemma {:induction false} NextLayerSound(prev: seq<Position>, n: nat, a: int)
    requires AtLevel(prev, n) && 0 <= a <= |prev|
    ensures forall b :: 0 <= b < |NextLayer(prev, n, a)| ==>
      exists a' :: 0 <= a' < a && ChildOf(prev[a'], NextLayer(prev, n, a)[b])
  {
    if a > 0 {
      var rest := NextLayer(prev, n, a - 1);
      var r := NextLayer(prev, n, a);
      NextLayerSound(prev, n, a - 1);
      ExpandSound(rest, prev[a - 1], 9);
      forall b | 0 <= b < |r| ensures exists a' :: 0 <= a' < a && ChildOf(prev[a'], r[b]) {
        if b < |rest| {
          assert r[b] == rest[b];
        } else {
          assert ChildOf(prev[a - 1], r[b]);
        }
      }
    } else {
      assert NextLayer(prev, n, a) == [];
    }
  }

  /** Every child of a PLAYING board offered is covered by the next layer. */
  lemma {:induction false} NextLayerComplete(prev: seq<Position>, n: nat, a: int)
    requires AtLevel(prev, n) && 0 <= a <= |prev|
    ensures forall a', c ::
      (0 <= a' < a && Grid(prev[a']) && prev[a'].state == Playing &&
       0 <= c < 9 && prev[a'].cells[c] == Empty) ==> Covered(Moved(prev[a'], c), NextLayer(prev, n, a))
  {
    if a > 0 {
      var rest := NextLayer(prev, n, a - 1);
      var r := NextLayer(prev, n, a);
      NextLayerComplete(prev, n, a - 1);
      if prev[a - 1].state == Playing {
        ExpandComplete(rest, prev[a - 1], 9);
      }
      forall a', c | 0 <= a' < a - 1 && Grid(prev[a']) && prev[a'].state == Playing &&
                     0 <= c < 9 && prev[a'].cells[c] == Empty
        ensures Covered(Moved(prev[a'], c), r)
      {
        CoveredGrows(Moved(prev[a'], c), rest, r);
      }
    }
  }

  /** The next layer holds no two boards equal up to symmetry. */
  lemma {:induction false} NextLayerDistinct(prev: seq<Position>, n: nat, a: int)
    requires AtLevel(prev, n) && 0 <= a <= |prev|
    ensures Distinct(NextLayer(prev, n, a))
  {
    if a > 0 {
      NextLayerDistinct(prev, n, a - 1);
      ExpandDistinct(NextLayer(prev, n, a - 1), prev[a - 1], 9);
    }
  }

  /** Layer 0 holds the empty board alone. */
  lemma RootLayer()
    ensures Layers(0) == [Initial(3, 3, 3)]
  {
  }

  lemma SingleDistinct(x: Position)
    ensures Distinct([x])
  {
  }

  /** Layer i > 0 is the layer built from layer i - 1. */
  lemma LayersStep(i: nat)
    requires 1 <= i <= 9
    ensures Layers(i) == NextLayer(Layers(i - 1), i - 1, |Layers(i - 1)|)
  {
  }

  lemma NextLayerSoundAll(prev: seq<Position>, n: nat)
    requires AtLevel(prev, n)
    ensures Sound(prev, NextLayer(prev, n, |prev|))
  {
    NextLayerSound(prev, n, |prev|);
  }

  lemma NextLayerCompleteAll(prev: seq<Position>, n: nat)
    requires AtLevel(prev, n)
    ensures Complete(prev, NextLayer(prev, n, |prev|))
  {
    NextLayerComplete(prev, n, |prev|);
  }

  /** Every board of layer i > 0 is one move on from a PLAYING board of layer i - 1. */
  lemma LayerSound(i: nat)
    requires 1 <= i <= 9
    ensures Sound(Layers(i - 1), Layers(i))
  {
    hide *;
    LayersStep(i);
    NextLayerSoundAll(Layers(i - 1), i - 1);
  }

  /** Every move from a PLAYING board of layer i - 1 leads to a board of layer i up to symmetry. */
  lemma LayerComplete(i: nat)
    requires 1 <= i <= 9
    ensures Complete(Layers(i - 1), Layers(i))
  {
    hide *;
    LayersStep(i);
    NextLayerCompleteAll(Layers(i - 1), i - 1);
  }

  /** No two boards of a layer are equal up to symmetry. */
  lemma LayerDistinct(i: nat)
    requires i <= 9
    ensures Distinct(Layers(i))
  {
    hide *;
    if i == 0 {
      RootLayer();
      SingleDistinct(Initial(3, 3, 3));
    } else {
      LayersStep(i);
      NextLayerDistinct(Layers(i - 1), i - 1, |Layers(i - 1)|);
    }
  }

  /**
   * Every board of the last layer is finished, so stopping after nine moves leaves
   * no PLAYING board unexpanded. The parameter i stands for 9, so that `Layers` is not
   * unfolded from a literal.
   */
  lemma LastLayerFinished(i: nat, b: int)
    requires i == 9 && 0 <= b < |Layers(i)|
    ensures Layers(i)[b].state != Playing
  {
    LayerSound(i);
    var prev := Layers(i - 1);
    var a :| 0 <= a < |prev| && ChildOf(prev[a], Layers(i)[b]);
    assert prev[a].level == 8;
    LastMoveFinishes(prev[a], Layers(i)[b]);
  }

  /** The ninth move on a 3x3 board leaves it finished. */
  lemma LastMoveFinishes(p: Position, q: Position)
    requires ChildOf(p, q) && p.level == 8
    ensures q.state != Playing
  {
    var c :| 0 <= c < 9 && p.cells[c] == Empty && q == Moved(p, c);
  }

  // ---------------------------------------------------------------------------
  // The tree as decorated boards

  /** A board of the tree and its decoration, one entry per cell. */
  class Node<D> {
    const game: Game
    const marks: array<D>
    /** The position the board stands for; tree boards never move again. */
    ghost const pos: Position

    ghost function Repr(): set<object> {
      {this, marks} + game.Repr()
    }

    ghost predicate Valid()
      reads game`level, game`gameState, game`symmetryDepth, game.board, game.transformedBoard
    {
      game.Valid() && game.Abs() == pos && Grid(pos) && marks.Length == 9 && marks !in game.Repr() &&
      IsPerm(game.transformedBoard[..], 9)
    }

    constructor (game: Game, seed: seq<D>)
      requires game.Valid() && Grid(game.Abs()) && |seed| == 9
      ensures this.game == game && pos == game.Abs() && fresh(marks) && marks[..] == seed
      ensures Valid()
    {
      this.game := game;
      pos := game.Abs();
      marks := new D[9](i requires 0 <= i < 9 => seed[i]);
      ViewPermutes(3, 3, game.symmetryDepth);
    }
  }

  /** The positions a sequence of nodes stands for. */
  ghost function Layer<D>(nodes: seq<Node<D>>): (ps: seq<Position>)
    ensures |ps| == |nodes| && forall b :: 0 <= b < |nodes| ==> ps[b] == nodes[b].pos
  {
    seq(|nodes|, b requires 0 <= b < |nodes| => nodes[b].pos)
  }

  /** Every node lies within the footprint fp and is valid, and no two nodes share an object. */
  ghost predicate Pool<D>(all: seq<Node<D>>, fp: set<object>)
    reads fp
  {
    (forall i :: 0 <= i < |all| ==> all[i].Repr() <= fp && all[i].Valid()) &&
    forall i, j :: 0 <= i < j < |all| ==> all[i].Repr() !! all[j].Repr()
  }

  /** The nodes of layer belong to all. */
  ghost predicate Within<D>(layer: seq<Node<D>>, all: seq<Node<D>>) {
    forall b :: 0 <= b < |layer| ==> layer[b] in all
  }

  /** A seed gives one decoration entry per cell of a 3x3 board. */
  ghost predicate Seeds<D>(seed: (seq<Cell>, nat) -> seq<D>) {
    forall cells: seq<Cell>, level: nat :: |cells| == 9 ==> |seed(cells, level)| == 9
  }

  /** Each node still holds the decoration it was created with. */
  ghost predicate Decorated<D>(all: seq<Node<D>>, fp: set<object>, seed: (seq<Cell>, nat) -> seq<D>)
    requires forall i :: 0 <= i < |all| ==> all[i].marks in fp
    reads fp
  {
    forall i :: 0 <= i < |all| ==> all[i].marks[..] == seed(all[i].pos.cells, all[i].pos.level)
  }

  /** Moving the cursor of g leaves the board of n alone. */
  ghost predicate Apart<D>(g: Game, n: Node<D>) {
    n.game != g && n.game.transformedBoard != g.transformedBoard
  }

  /**
   * Compares the fresh board g with each board of the layer in turn, g being the
   * receiver, and stops at the first one equal up to symmetry, whose index it returns.
   * Only g's cursor moves.
   */
  method FirstMatch<D>(g: Game, layer: seq<Node<D>>) returns (found: Option<int>)
    requires g.Valid()
    requires forall b :: 0 <= b < |layer| ==> layer[b].Valid() && Apart(g, layer[b])
    modifies g`symmetryDepth, g.transformedBoard
    ensures g.Valid() && g.Abs() == old(g.Abs())
    ensures found == FirstCover(g.Abs(), Layer(layer))
  {
    var b := 0;
    while b < |layer|
      invariant 0 <= b <= |layer| && g.Valid() && g.Abs() == old(g.Abs())
      invariant forall k :: 0 <= k < |layer| ==> layer[k].Valid()
      invariant !Covered(g.Abs(), Layer(layer)[..b])
    {
      var same := g.EqualsWithSymmetry(layer[b].game);
      if same {
        FirstCoverAt(g.Abs(), Layer(layer), b);
        return Some(b);
      }
      CoveredStep(g.Abs(), Layer(layer), b);
      b := b + 1;
    }
    assert Layer(layer)[..b] == Layer(layer);
    return None;
  }

  /** A board equal to ps[b] up to symmetry is covered by ps. */
  lemma CoveredAt(x: Position, ps: seq<Position>, b: int)
    requires 0 <= b < |ps| && SymEq(x, ps[b])
    ensures Covered(x, ps)
  {
  }

  /** A board not covered by ps[..b] and not equal to ps[b] is not covered by ps[..b + 1]. */
  lemma CoveredStep(x: Position, ps: seq<Position>, b: int)
    requires 0 <= b < |ps| && !Covered(x, ps[..b]) && !SymEq(x, ps[b])
    ensures !Covered(x, ps[..b + 1])
  {
    var t := ps[..b + 1];
    forall k | 0 <= k < |t| ensures !SymEq(x, t[k]) {
      if k < b {
        assert t[k] == ps[..b][k];
      }
    }
  }

  /** A copy of parent with j played, decorated with its seed. */
  method Spawn<D>(parent: Node<D>, j: int, seed: (seq<Cell>, nat) -> seq<D>) returns (n: Node<D>)
    requires Seeds(seed) && parent.Valid() && 0 <= j < 9 && parent.pos.cells[j] == Empty
    ensures fresh(n.Repr())
    ensures n.Valid() && n.pos == Moved(parent.pos, j) && n.marks[..] == seed(n.pos.cells, n.pos.level)
  {
    var g := new Game.WithMove(parent.game, j);
    n := new Node(g, seed(g.board[..], g.level));
  }

  /**
   * Plays j on a copy of parent and decorates it; isNew tells whether no board of the
   * layer equals the child up to symmetry.
   */
  method Candidate<D>(parent: Node<D>, j: int, cur: seq<Node<D>>,
                      ghost all: seq<Node<D>>, ghost fp: set<object>, seed: (seq<Cell>, nat) -> seq<D>)
    returns (n: Node<D>, isNew: bool)
    requires Seeds(seed) && Pool(all, fp) && Within(cur, all)
    requires parent.Valid() && 0 <= j < 9 && parent.pos.cells[j] == Empty
    ensures fresh(n.Repr())
    ensures n.Valid() && n.pos == Moved(parent.pos, j) && n.marks[..] == seed(n.pos.cells, n.pos.level)
    ensures isNew <==> !Covered(n.pos, Layer(cur))
  {
    n := Spawn(parent, j, seed);
    Separate(all, fp, cur, n.game);
    var found := FirstMatch(n.game, cur);
    isNew := found.None?;
    ViewPermutes(3, 3, n.game.symmetryDepth);
  }

  /**
   * Plays j on a copy of parent, decorates it, and appends it to the layer unless a
   * board already there equals it up to symmetry.
   */
  method AddChild<D>(parent: Node<D>, j: int, cur: seq<Node<D>>,
                     ghost all: seq<Node<D>>, ghost fp: set<object>, seed: (seq<Cell>, nat) -> seq<D>)
    returns (next: seq<Node<D>>, ghost all': seq<Node<D>>, ghost fp': set<object>)
    requires Seeds(seed) && Pool(all, fp) && Within(cur, all) && Decorated(all, fp, seed)
    requires parent.Valid() && 0 <= j < 9 && parent.pos.cells[j] == Empty
    ensures Pool(all', fp') && Within(next, all') && Decorated(all', fp', seed)
    ensures Extends(all, all') && fp <= fp'
    ensures Layer(next) == AddUnique(Layer(cur), Moved(parent.pos, j))
    ensures forall i :: |all| <= i < |all'| ==> fresh(all'[i].marks)
  {
    var n, isNew := Candidate(parent, j, cur, all, fp, seed);
    if isNew {
      next := cur + [n];
    } else {
      next := cur;
    }
    all', fp' := if isNew then all + [n] else all, if isNew then fp + n.Repr() else fp;
    Offered(all, fp, cur, n, seed, isNew);
  }

  /**
   * A board outside the footprint of a pool can move its cursor without disturbing
   * the valid nodes of a layer drawn from the pool.
   */
  lemma Separate<D>(all: seq<Node<D>>, fp: set<object>, layer: seq<Node<D>>, g: Game)
    requires Pool(all, fp) && Within(layer, all) && g.Repr() !! fp
    ensures forall b :: 0 <= b < |layer| ==> layer[b].Valid() && Apart(g, layer[b])
  {
    forall b | 0 <= b < |layer| ensures layer[b].Valid() && Apart(g, layer[b]) {
      var i :| 0 <= i < |all| && all[i] == layer[b];
      assert layer[b].game in fp && layer[b].game.transformedBoard in fp;
    }
  }

  /**
   * The pool and the layer after offering them the valid node n, which lies outside
   * the footprint and holds its seed: n joins both exactly when the layer does not
   * cover its board.
   */
  lemma Offered<D>(all: seq<Node<D>>, fp: set<object>, cur: seq<Node<D>>, n: Node<D>,
                   seed: (seq<Cell>, nat) -> seq<D>, isNew: bool)
    requires Pool(all, fp) && Within(cur, all) && Decorated(all, fp, seed)
    requires n.Valid() && n.marks[..] == seed(n.pos.cells, n.pos.level) && n.Repr() !! fp
    requires isNew <==> !Covered(n.pos, Layer(cur))
    ensures var all', fp' := (if isNew then all + [n] else all), (if isNew then fp + n.Repr() else fp);
      Pool(all', fp') && Decorated(all', fp', seed) && Extends(all, all') && fp <= fp' &&
      Within(if isNew then cur + [n] else cur, all') &&
      Layer(if isNew then cur + [n] else cur) == AddUnique(Layer(cur), n.pos)
  {
    if isNew {
      var all' := all + [n];
      assert forall i :: 0 <= i < |all| ==> all'[i] == all[i];
      assert all'[|all|] == n;
      assert Layer(cur + [n]) == Layer(cur) + [n.pos];
    }
  }

  /** Offers the layer the children of parent at cells 0 .. 8, if parent is still PLAYING. */
  method ExpandParent<D>(parent: Node<D>, cur: seq<Node<D>>,
                         ghost all: seq<Node<D>>, ghost fp: set<object>, seed: (seq<Cell>, nat) -> seq<D>)
    returns (next: seq<Node<D>>, ghost all': seq<Node<D>>, ghost fp': set<object>)
    requires Seeds(seed) && Pool(all, fp) && Within(cur, all) && Decorated(all, fp, seed)
    requires parent.Valid() && AtLevel(Layer(cur), parent.pos.level + 1)
    ensures Pool(all', fp') && Within(next, all') && Decorated(all', fp', seed)
    ensures Extends(all, all') && fp <= fp'
    ensures Layer(next) == Expand(Layer(cur), parent.pos, 9)
    ensures forall i :: |all| <= i < |all'| ==> fresh(all'[i].marks)
  {
    next, all', fp' := cur, all, fp;
    if parent.game.gameState == Playing {
      var j := 0;
      while j < 9
        invariant 0 <= j <= 9 && parent.Valid()
        invariant Pool(all', fp') && Within(next, all') && Decorated(all', fp', seed)
        invariant Extends(all, all') && fp <= fp'
        invariant Layer(next) == Expand(Layer(cur), parent.pos, j)
        invariant forall i :: |all| <= i < |all'| ==> fresh(all'[i].marks)
      {
        var v := parent.game.ValueAt(j);
        if v == Ok(Empty) {
          ghost var before := all';
          next, all', fp' := AddChild(parent, j, next, all', fp', seed);
          ExtendsTrans(all, before, all');
        }
        j := j + 1;
      }
    }
  }

  /** Extension is transitive. */
  lemma ExtendsTrans<T>(s: seq<T>, t: seq<T>, u: seq<T>)
    requires Extends(s, t) && Extends(t, u)
    ensures Extends(s, u)
  {
    assert u[..|s|] == u[..|t|][..|s|];
  }

  /**
   * The layer after prev is built up to parent a: cur holds the children of prev[..a],
   * drawn from all, which extends all0; fp extends fp0.
   */
  ghost predicate Building<D>(prev: seq<Node<D>>, n: nat, all0: seq<Node<D>>, fp0: set<object>,
                              seed: (seq<Cell>, nat) -> seq<D>, cur: seq<Node<D>>, all: seq<Node<D>>,
                              fp: set<object>, born: set<object>, a: int)
    reads fp
  {
    (forall i :: |all0| <= i < |all| ==> all[i].marks in born) &&
    Within(prev, all0) && AtLevel(Layer(prev), n) && 0 <= a <= |prev| &&
    Pool(all, fp) && Within(cur, all) && Decorated(all, fp, seed) && Extends(all0, all) && fp0 <= fp &&
    Layer(cur) == NextLayer(Layer(prev), n, a)
  }

  /** Offers the layer the children of parent prev[a]. */
  method ExpandNext<D>(prev: seq<Node<D>>, ghost n: nat, a: int, cur: seq<Node<D>>, ghost all0: seq<Node<D>>,
                       ghost fp0: set<object>, ghost all: seq<Node<D>>, ghost fp: set<object>, ghost born: set<object>,
                       seed: (seq<Cell>, nat) -> seq<D>)
    returns (cur': seq<Node<D>>, ghost all': seq<Node<D>>, ghost fp': set<object>, ghost more: set<object>)
    requires Seeds(seed) && Building(prev, n, all0, fp0, seed, cur, all, fp, born, a) && a < |prev|
    ensures Building(prev, n, all0, fp0, seed, cur', all', fp', born + more, a + 1)
    ensures fresh(more)
  {
    ParentReady(prev, a, n, cur, all0, all, fp);
    cur', all', fp' := ExpandParent(prev[a], cur, all, fp, seed);
    more := set i | |all| <= i < |all'| :: all'[i].marks;
    ExtendsTrans(all0, all, all');
    NextLayerStep(prev, n, a, cur, cur');
  }

  /** Builds the layer after prev by offering it the children of each board of prev in order. */
  method BuildLayer<D>(prev: seq<Node<D>>, ghost n: nat,
                       ghost all: seq<Node<D>>, ghost fp: set<object>, seed: (seq<Cell>, nat) -> seq<D>)
    returns (cur: seq<Node<D>>, ghost all': seq<Node<D>>, ghost fp': set<object>)
    requires Seeds(seed) && Pool(all, fp) && Within(prev, all) && Decorated(all, fp, seed)
    requires AtLevel(Layer(prev), n)
    ensures Pool(all', fp') && Within(cur, all') && Decorated(all', fp', seed)
    ensures Extends(all, all') && fp <= fp'
    ensures Layer(cur) == NextLayer(Layer(prev), n, |prev|)
    ensures forall i :: |all| <= i < |all'| ==> fresh(all'[i].marks)
  {
    cur, all', fp' := [], all, fp;
    ghost var born: set<object> := {};
    hide *;
    Begin(prev, n, all, fp, seed);
    var a := 0;
    while a < |prev|
      invariant 0 <= a <= |prev| && Building(prev, n, all, fp, seed, cur, all', fp', born, a)
      invariant fresh(born)
    {
      ghost var more;
      cur, all', fp', more := ExpandNext(prev, n, a, cur, all, fp, all', fp', born, seed);
      born := born + more;
      a := a + 1;
    }
    Built(prev, n, all, fp, seed, cur, all', fp', born);
  }

  /** Nothing is built before the first parent. */
  lemma Begin<D>(prev: seq<Node<D>>, n: nat, all: seq<Node<D>>, fp: set<object>, seed: (seq<Cell>, nat) -> seq<D>)
    requires Pool(all, fp) && Within(prev, all) && Decorated(all, fp, seed) && AtLevel(Layer(prev), n)
    ensures Building(prev, n, all, fp, seed, [], all, fp, {}, 0)
  {
  }

  /** A layer built up to the last parent is the next layer. */
  lemma Built<D>(prev: seq<Node<D>>, n: nat, all0: seq<Node<D>>, fp0: set<object>,
                 seed: (seq<Cell>, nat) -> seq<D>, cur: seq<Node<D>>, all: seq<Node<D>>, fp: set<object>,
                 born: set<object>)
    requires Building(prev, n, all0, fp0, seed, cur, all, fp, born, |prev|)
    ensures forall i :: |all0| <= i < |all| ==> all[i].marks in born
    ensures Pool(all, fp) && Within(cur, all) && Decorated(all, fp, seed)
    ensures Extends(all0, all) && fp0 <= fp
    ensures Layer(cur) == NextLayer(Layer(prev), n, |prev|)
  {
  }


  /** The next board of prev is a valid parent for the layer built so far. */
  lemma ParentReady<D>(prev: seq<Node<D>>, a: nat, n: nat, cur: seq<Node<D>>,
                       all: seq<Node<D>>, all': seq<Node<D>>, fp': set<object>)
    requires Pool(all', fp') && Within(prev, all) && Extends(all, all') && a < |prev|
    requires AtLevel(Layer(prev), n) && Layer(cur) == NextLayer(Layer(prev), n, a)
    ensures prev[a].Valid() && AtLevel(Layer(cur), prev[a].pos.level + 1)
  {
    WithinGrows(prev, all, all');
    Member(all', fp', prev[a]);
    assert Layer(prev)[a] == prev[a].pos;
  }

  /** Expanding the next board of prev extends the layer built so far by one parent. */
  lemma NextLayerStep<D>(prev: seq<Node<D>>, n: nat, a: nat, partial: seq<Node<D>>, cur: seq<Node<D>>)
    requires AtLevel(Layer(prev), n) && a < |prev|
    requires Layer(partial) == NextLayer(Layer(prev), n, a)
    requires Layer(cur) == Expand(Layer(partial), prev[a].pos, 9)
    ensures Layer(cur) == NextLayer(Layer(prev), n, a + 1)
  {
    assert Layer(prev)[a] == prev[a].pos;
  }

  /** A layer drawn from a pool is drawn from any extension of it. */
  lemma WithinGrows<D>(layer: seq<Node<D>>, all: seq<Node<D>>, all': seq<Node<D>>)
    requires Within(layer, all) && Extends(all, all')
    ensures Within(layer, all')
  {
    forall b | 0 <= b < |layer| ensures layer[b] in all' {
      var i :| 0 <= i < |all| && all[i] == layer[b];
      assert all'[i] == all[i];
    }
  }

  /** The layer built from layer i - 1 is layer i. */
  lemma NextIsLayer<D>(i: nat, prev: seq<Node<D>>, cur: seq<Node<D>>)
    requires 1 <= i <= 9 && Layer(prev) == Layers(i - 1)
    requires Layer(cur) == NextLayer(Layer(prev), i - 1, |prev|)
    ensures Layer(cur) == Layers(i)
  {
  }

  /** A member of a pool is valid. */
  lemma Member<D>(all: seq<Node<D>>, fp: set<object>, x: Node<D>)
    requires Pool(all, fp) && x in all
    ensures x.Valid()
  {
  }

  /**
   * layers starts with the root layer, holds boards of level k in layer k, and builds each
   * layer from the one before it.
   */
  ghost predicate Chained<D>(layers: seq<seq<Node<D>>>) {
    1 <= |layers| <= 10 && Layer(layers[0]) == Layers(0) &&
    (forall k :: 0 <= k < |layers| ==> AtLevel(Layer(layers[k]), k)) &&
    forall k :: 1 <= k < |layers| ==>
      Layer(layers[k]) == NextLayer(Layer(layers[k - 1]), k - 1, |layers[k - 1]|)
  }

  /** Every layer of layers is drawn from the pool all. */
  ghost predicate AllWithin<D>(layers: seq<seq<Node<D>>>, all: seq<Node<D>>) {
    forall k :: 0 <= k < |layers| ==> Within(layers[k], all)
  }

  /** Adds the next layer, built from the last one, to the stack of layers. */
  method Grow<D>(layers: seq<seq<Node<D>>>, ghost all: seq<Node<D>>, ghost fp: set<object>,
                 seed: (seq<Cell>, nat) -> seq<D>)
    returns (layers': seq<seq<Node<D>>>, ghost all': seq<Node<D>>, ghost fp': set<object>)
    requires |layers| <= 9 && Chained(layers) && AllWithin(layers, all)
    requires Seeds(seed) && Pool(all, fp) && Decorated(all, fp, seed)
    ensures |layers'| == |layers| + 1 && Chained(layers') && AllWithin(layers', all')
    ensures Pool(all', fp') && Decorated(all', fp', seed)
    ensures fp <= fp' && Extends(all, all')
    ensures forall i :: |all| <= i < |all'| ==> fresh(all'[i].marks)
  {
    var i := |layers|;
    var cur;
    cur, all', fp' := BuildLayer(layers[i - 1], i - 1, all, fp, seed);
    AllWithinGrows(layers, cur, all, all');
    ChainedGrows(layers, cur);
    layers' := layers + [cur];
  }

  /** A chain of layers grows by the layer built from its last one. */
  lemma ChainedGrows<D>(layers: seq<seq<Node<D>>>, cur: seq<Node<D>>)
    requires |layers| <= 9 && Chained(layers)
    requires Layer(cur) == NextLayer(Layer(layers[|layers| - 1]), |layers| - 1, |layers[|layers| - 1]|)
    ensures Chained(layers + [cur])
  {
    var s := layers + [cur];
    assert s[0] == layers[0];
    forall k | 0 <= k < |s| ensures AtLevel(Layer(s[k]), k) {
      if k < |layers| {
        assert s[k] == layers[k];
      }
    }
    forall k | 1 <= k < |s|
      ensures Layer(s[k]) == NextLayer(Layer(s[k - 1]), k - 1, |s[k - 1]|)
    {
      assert s[k - 1] == layers[k - 1];
      if k < |layers| {
        assert s[k] == layers[k];
      }
    }
  }

  /** Layer m of a chain is layer m of the tree. */
  lemma {:induction false} ChainedLayers<D>(layers: seq<seq<Node<D>>>, m: nat)
    requires Chained(layers) && m < |layers|
    ensures Layer(layers[m]) == Layers(m)
  {
    if m > 0 {
      ChainedLayers(layers, m - 1);
      NextIsLayer(m, layers[m - 1], layers[m]);
    }
  }

  /** Layers drawn from all, and a layer drawn from its extension all', are drawn from all'. */
  lemma AllWithinGrows<D>(layers: seq<seq<Node<D>>>, cur: seq<Node<D>>, all: seq<Node<D>>, all': seq<Node<D>>)
    requires AllWithin(layers, all) && Extends(all, all') && Within(cur, all')
    ensures AllWithin(layers + [cur], all')
  {
    var s := layers + [cur];
    forall k | 0 <= k < |s| ensures Within(s[k], all') {
      if k < |layers| {
        assert s[k] == layers[k];
        WithinGrows(layers[k], all, all');
      }
    }
  }

  /**
   * Builds the ten layers of the tree: the empty 3x3 board, then layer by layer the
   * children of its PLAYING boards, each decorated with seed when it is created.
   */
  method Build<D>(seed: (seq<Cell>, nat) -> seq<D>)
    returns (layers: seq<seq<Node<D>>>, ghost all: seq<Node<D>>, ghost fp: set<object>)
    requires Seeds(seed)
    ensures Tree(layers, all)
    ensures Pool(all, fp) && Decorated(all, fp, seed)
    ensures forall i :: 0 <= i < |all| ==> fresh(all[i].marks)
  {
    var g := new Game(3, 3, 3);
    var root := new Node(g, seed(g.board[..], g.level));
    layers, all, fp := [[root]], [root], root.Repr();
    while |layers| < 10
      invariant Chained(layers) && AllWithin(layers, all)
      invariant Pool(all, fp) && Decorated(all, fp, seed)
      invariant forall i :: 0 <= i < |all| ==> fresh(all[i].marks)
      decreases 10 - |layers|
    {
      layers, all, fp := Grow(layers, all, fp, seed);
    }
    forall i | 0 <= i < 10 ensures Layer(layers[i]) == Layers(i) {
      ChainedLayers(layers, i);
    }
    assert Layered(layers) == Stack();
  }

  // ---------------------------------------------------------------------------
  // Looking a live board up in a layer

  /** Some board of ps, compared from its own side, equals x up to symmetry. */
  ghost predicate Represented(ps: seq<Position>, x: Position) {
    exists b :: 0 <= b < |ps| && SymEq(ps[b], x)
  }

  /** A board of ps equal to x up to symmetry represents x. */
  lemma RepresentedAt(ps: seq<Position>, x: Position, b: int)
    requires 0 <= b < |ps| && SymEq(ps[b], x)
    ensures Represented(ps, x)
  {
  }

  /** x not represented by ps[..b] nor by ps[b] is not represented by ps[..b + 1]. */
  lemma RepresentedStep(ps: seq<Position>, x: Position, b: int)
    requires 0 <= b < |ps| && !Represented(ps[..b], x) && !SymEq(ps[b], x)
    ensures !Represented(ps[..b + 1], x)
  {
    var t := ps[..b + 1];
    forall k | 0 <= k < |t| ensures !SymEq(t[k], x) {
      if k < b {
        assert t[k] == ps[..b][k];
      }
    }
  }

  /** Every node of all but the j-th is valid, and lies inside others. */
  ghost predicate Rest<D>(all: seq<Node<D>>, others: set<object>, j: int)
    reads others
  {
    (forall i :: 0 <= i < |all| && i != j ==> all[i].Repr() <= others) &&
    forall i :: 0 <= i < |all| && i != j ==> all[i].Valid()
  }

  /** The nodes of a pool other than the j-th lie outside the j-th node's cursor. */
  lemma PoolRest<D>(all: seq<Node<D>>, fp: set<object>, j: int)
    requires Pool(all, fp) && 0 <= j < |all|
    ensures all[j].Valid()
    ensures Rest(all, fp - {all[j].game, all[j].game.transformedBoard}, j)
  {
    var n := all[j];
    forall i | 0 <= i < |all| && i != j ensures all[i].Repr() <= fp - {n.game, n.game.transformedBoard} {
      if i < j {
        assert all[i].Repr() !! all[j].Repr();
      } else {
        assert all[j].Repr() !! all[i].Repr();
      }
    }
  }

  /** The j-th node valid again and the rest untouched make the pool whole again. */
  lemma RestPool<D>(all: seq<Node<D>>, fp: set<object>, others: set<object>, j: int)
    requires 0 <= j < |all| && all[j].Valid() && all[j].Repr() <= fp && Rest(all, others, j)
    requires others <= fp
    requires forall i, k :: 0 <= i < k < |all| ==> all[i].Repr() !! all[k].Repr()
    ensures Pool(all, fp)
  {
  }

  /** Compares the stored board of n, as the receiver, with the live board g. */
  method Probe<D>(n: Node<D>, g: Game, ghost all: seq<Node<D>>, ghost fp: set<object>) returns (same: bool)
    requires Pool(all, fp) && n in all && g.Valid() && g.Repr() !! fp
    modifies n.game`symmetryDepth, n.game.transformedBoard
    ensures Pool(all, fp) && forall i :: 0 <= i < |all| ==> all[i].marks[..] == old(all[i].marks[..])
    ensures same <==> SymEq(n.pos, g.Abs())
    ensures same ==> Matches(n.pos.cells, g.Abs().cells, n.game.transformedBoard[..])
    ensures forall i :: 0 <= i < |all| && all[i] != n ==>
      all[i].game.transformedBoard[..] == old(all[i].game.transformedBoard[..])
  {
    ghost var j :| 0 <= j < |all| && all[j] == n;
    ghost var others := fp - {n.game, n.game.transformedBoard};
    PoolRest(all, fp, j);
    assert g !in fp && g.board !in fp;
    same := n.game.EqualsWithSymmetry(g);
    ViewPermutes(3, 3, n.game.symmetryDepth);
    assert unchanged(others);
    RestPool(all, fp, others, j);
    forall i | 0 <= i < |all| && all[i] != n
      ensures all[i].game.transformedBoard[..] == old(all[i].game.transformedBoard[..])
    {
      assert all[i].game.transformedBoard in others;
    }
  }

  /**
   * Compares each board of layer in turn, the stored board being the receiver, with the
   * live board g, and stops at the first one equal to it up to symmetry. Only the cursors
   * of the stored boards move; g and every decoration stay as they were.
   */
  method Find<D>(layer: seq<Node<D>>, g: Game, ghost all: seq<Node<D>>, ghost fp: set<object>)
    returns (found: Option<int>)
    requires Pool(all, fp) && Within(layer, all) && g.Valid() && g.Repr() !! fp
    modifies fp
    ensures Pool(all, fp) && g.Valid() && g.Abs() == old(g.Abs())
    ensures forall i :: 0 <= i < |all| ==> all[i].marks[..] == old(all[i].marks[..])
    ensures found.None? <==> !Represented(Layer(layer), g.Abs())
    ensures found.Some? ==>
      var b := found.value;
      0 <= b < |layer| && SymEq(layer[b].pos, g.Abs()) && !Represented(Layer(layer)[..b], g.Abs()) &&
      Matches(layer[b].pos.cells, g.Abs().cells, layer[b].game.transformedBoard[..])
    ensures forall i :: 0 <= i < |all| && all[i] !in layer ==>
      all[i].game.transformedBoard[..] == old(all[i].game.transformedBoard[..])
  {
    ghost var live := g.Abs();
    var b := 0;
    while b < |layer|
      invariant 0 <= b <= |layer| && Pool(all, fp) && g.Valid() && g.Abs() == live
      invariant forall i :: 0 <= i < |all| ==> all[i].marks[..] == old(all[i].marks[..])
      invariant !Represented(Layer(layer)[..b], live)
      invariant forall i :: 0 <= i < |all| && all[i] !in layer ==>
        all[i].game.transformedBoard[..] == old(all[i].game.transformedBoard[..])
    {
      var same := Probe(layer[b], g, all, fp);
      if same {
        RepresentedAt(Layer(layer), live, b);
        return Some(b);
      }
      RepresentedStep(Layer(layer), live, b);
      b := b + 1;
    }
    assert Layer(layer)[..b] == Layer(layer);
    return None;
  }

  // ---------------------------------------------------------------------------
  // The tree a player keeps

  /** The ten layers of positions the tree is built from. */
  ghost function Stack(): (s: seq<seq<Position>>)
    ensures |s| == 10 && forall i :: 0 <= i < 10 ==> s[i] == Layers(i)
  {
    seq(10, i requires 0 <= i < 10 => Layers(i))
  }

  /** The positions of each layer of boards. */
  ghost function Layered<D>(layers: seq<seq<Node<D>>>): (s: seq<seq<Position>>)
    ensures |s| == |layers| && forall i :: 0 <= i < |layers| ==> s[i] == Layer(layers[i])
  {
    seq(|layers|, i requires 0 <= i < |layers| => Layer(layers[i]))
  }

  /** Ten layers, the i-th holding the boards of Layers(i), every one of them in all. */
  ghost predicate Tree<D>(layers: seq<seq<Node<D>>>, all: seq<Node<D>>) {
    Layered(layers) == Stack() && AllWithin(layers, all)
  }

  /** The decoration arrays of a pool. */
  ghost function Beads<D>(all: seq<Node<D>>): set<object> {
    set i | 0 <= i < |all| :: all[i].marks
  }

  /** The decorations of a pool, board by board. */
  ghost function Marks<D>(all: seq<Node<D>>): (ms: seq<seq<D>>)
    reads Beads(all)
    ensures |ms| == |all| && forall i :: 0 <= i < |all| ==> ms[i] == all[i].marks[..]
  {
    seq(|all|, i requires 0 <= i < |all| reads Beads(all) => all[i].marks[..])
  }

  /** Decorations equal board by board are the same decorations. */
  lemma MarksSame<D>(all: seq<Node<D>>, before: seq<seq<D>>)
    requires |before| == |all| && forall i :: 0 <= i < |all| ==> all[i].marks[..] == before[i]
    ensures Marks(all) == before
  {
  }

  /** Every board of all is valid and its objects lie inside cursors. */
  ghost predicate Standing<D>(all: seq<Node<D>>, cursors: set<object>)
    reads cursors
  {
    (forall i :: 0 <= i < |all| ==> all[i].game.Repr() <= cursors) &&
    forall i :: 0 <= i < |all| ==> all[i].Valid()
  }

  /** The boards of a pool lie outside its decorations. */
  lemma BeadsApart<D>(all: seq<Node<D>>, fp: set<object>)
    requires Pool(all, fp)
    ensures forall i :: 0 <= i < |all| ==> all[i].game.Repr() <= fp - Beads(all)
  {
    forall i | 0 <= i < |all| ensures all[i].game.Repr() <= fp - Beads(all) {
      forall j | 0 <= j < |all| ensures all[j].marks !in all[i].game.Repr() {
        if i < j {
          assert all[i].Repr() !! all[j].Repr();
        } else if j < i {
          assert all[j].Repr() !! all[i].Repr();
        }
      }
    }
  }

  /** A pool whose boards still stand after its decorations changed is a pool again. */
  lemma StandingPool<D>(all: seq<Node<D>>, fp: set<object>, cursors: set<object>)
    requires Standing(all, cursors) && cursors <= fp
    requires forall i :: 0 <= i < |all| ==> all[i].Repr() <= fp
    requires forall i, j :: 0 <= i < j < |all| ==> all[i].Repr() !! all[j].Repr()
    ensures Pool(all, fp)
  {
  }

  /**
   * Finds the board of the tree that stands for the live board, as both players do: a
   * full live board is an error, so is a level past the last layer, and otherwise the
   * first board of the layer at the live board's level equal to it up to symmetry is the
   * one found, by its index in the layer. Only cursors of that layer's boards move.
   */
  method Lookup<D>(layers: seq<seq<Node<D>>>, live: Game, ghost all: seq<Node<D>>, ghost fp: set<object>)
    returns (r: Result<int>)
    requires Tree(layers, all) && Pool(all, fp) && live.Valid() && live.Repr() !! fp
    modifies fp
    ensures Pool(all, fp) && live.Valid() && live.Abs() == old(live.Abs())
    ensures forall i :: 0 <= i < |all| ==> all[i].marks[..] == old(all[i].marks[..])
    ensures forall i :: 0 <= i < |all| && all[i].pos.level != live.level ==>
      all[i].game.transformedBoard[..] == old(all[i].game.transformedBoard[..])
    ensures live.level == live.lines * live.columns ==> r == Err(GameFinishedAlready)
    ensures live.level != live.lines * live.columns && live.level >= 10 ==> r == Err(IndexOutOfBounds)
    ensures live.level != live.lines * live.columns && live.level < 10 ==>
      (r.Err? <==> !Represented(Layers(live.level), live.Abs())) && (r.Err? ==> r.error == GameNotFound)
    ensures r.Ok? ==>
      var k, b := live.level, r.value;
      k < 10 && 0 <= b < |layers[k]| && layers[k][b] in all && layers[k][b].pos == Layers(k)[b] &&
      SymEq(Layers(k)[b], live.Abs()) && !Represented(Layers(k)[..b], live.Abs()) &&
      Matches(Layers(k)[b].cells, live.Abs().cells, layers[k][b].game.transformedBoard[..])
  {
    if live.level == live.lines * live.columns {
      return Err(GameFinishedAlready);
    }
    assert Layered(layers)[0] == Stack()[0];
    if live.level >= |layers| {
      return Err(IndexOutOfBounds);
    }
    var layer := layers[live.level];
    assert Layered(layers)[live.level] == Stack()[live.level];
    assert Within(layer, all);
    var found := Find(layer, live, all, fp);
    assert forall i :: 0 <= i < |all| && all[i].pos.level != live.level ==> all[i] !in layer;
    if found.None? {
      return Err(GameNotFound);
    }
    r := Ok(found.value);
    assert Layer(layer)[found.value] == layer[found.value].pos;
  }
}
