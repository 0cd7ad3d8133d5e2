/**
 * The MENACE player: the symmetry-deduplicated tree of 3x3 boards decorated with beads,
 * the lookup that plays the bead-weighted move of the live board's representative, the
 * trail of (board, move) pairs it keeps during a game, and the reinforcement that adds
 * or removes beads along that trail once the game is over.
 */
module MenacePlayer {
  import opened Wrappers
  import opened Rules
  import opened Symmetry
  import opened TicTacToe
  import opened GameTree
  import opened Menace

  /** The beads a finished game adds to each move of the trail: a win 3, a draw 1, a loss -1. */
  function Payoff(result: GameState, me: Cell): int {
    if result == Draw then 1
    else if (result == XWin && me == X) || (result == OWin && me == O) then 3
    else -1
  }

  /**
   * How many of the first m entries of a trail are the board x with a move that the view
   * recorded with the entry sends to the stored slot s.
   */
  ghost function Count(trail: seq<Node<int>>, moves: seq<int>, views: seq<seq<int>>,
                       x: Node<int>, s: int, m: nat): nat
    requires m <= |trail| && m <= |moves| && m <= |views|
  {
    if m == 0 then 0
    else
      Count(trail, moves, views, x, s, m - 1) +
      (if trail[m - 1] == x && 0 <= moves[m - 1] < |views[m - 1]| && views[m - 1][moves[m - 1]] == s
       then 1 else 0)
  }

  /** The decorations ms with delta added to stored slot p of every board that is n. */
  ghost function Bump(ms: seq<seq<int>>, all: seq<Node<int>>, n: Node<int>, p: int, delta: int)
    : (r: seq<seq<int>>)
    requires |ms| == |all|
    ensures |r| == |ms|
  {
    seq(|ms|, i requires 0 <= i < |ms| =>
      if all[i] == n && 0 <= p < |ms[i]| then ms[i][p := ms[i][p] + delta] else ms[i])
  }

  /** The stored slot the k-th move of a trail lands on through its recorded view (-1 for none). */
  ghost function Slot(moves: seq<int>, views: seq<seq<int>>, k: nat): int
    requires k < |moves| && k < |views|
  {
    if 0 <= moves[k] < |views[k]| then views[k][moves[k]] else -1
  }

  /**
   * The decorations after the first k entries of a trail have each received delta beads
   * on the slot of their move, one entry after the other.
   */
  ghost function Rewarded(ms: seq<seq<int>>, all: seq<Node<int>>, trail: seq<Node<int>>,
                          moves: seq<int>, views: seq<seq<int>>, delta: int, k: nat): (r: seq<seq<int>>)
    requires |ms| == |all| && k <= |trail| && k <= |moves| && k <= |views|
    ensures |r| == |ms|
  {
    if k == 0 then ms
    else Bump(Rewarded(ms, all, trail, moves, views, delta, k - 1), all, trail[k - 1], Slot(moves, views, k - 1), delta)
  }

  /** Rewarding one more entry bumps the slot of that entry's move on its board. */
  lemma RewardedNext(ms: seq<seq<int>>, all: seq<Node<int>>, trail: seq<Node<int>>,
                     moves: seq<int>, views: seq<seq<int>>, delta: int, k: nat)
    requires |ms| == |all| && k < |trail| && k < |moves| && k < |views|
    ensures Rewarded(ms, all, trail, moves, views, delta, k + 1) ==
      Bump(Rewarded(ms, all, trail, moves, views, delta, k), all, trail[k], Slot(moves, views, k), delta)
  {
  }

  /**
   * Rewarding a trail adds to each stored slot of each board delta times the number of
   * trail entries that played that board onto that slot, and touches nothing else.
   */
  lemma {:induction false} RewardedCount(ms: seq<seq<int>>, all: seq<Node<int>>, trail: seq<Node<int>>,
                                         moves: seq<int>, views: seq<seq<int>>, delta: int, k: nat)
    requires |ms| == |all| && k <= |trail| && k <= |moves| && k <= |views|
    ensures var r := Rewarded(ms, all, trail, moves, views, delta, k);
      |r| == |ms| &&
      forall i :: 0 <= i < |ms| ==>
        |r[i]| == |ms[i]| &&
        forall s :: 0 <= s < |ms[i]| ==> r[i][s] == ms[i][s] + delta * Count(trail, moves, views, all[i], s, k)
  {
    if k > 0 {
      RewardedCount(ms, all, trail, moves, views, delta, k - 1);
      var before := Rewarded(ms, all, trail, moves, views, delta, k - 1);
      var n, p := trail[k - 1], Slot(moves, views, k - 1);
      forall i | 0 <= i < |ms|
        ensures |Bump(before, all, n, p, delta)[i]| == |ms[i]| &&
          forall s :: 0 <= s < |ms[i]| ==>
            Bump(before, all, n, p, delta)[i][s] == ms[i][s] + delta * Count(trail, moves, views, all[i], s, k)
      {
        BumpAt(before, all, n, p, delta, i);
        forall s | 0 <= s < |ms[i]|
          ensures Bump(before, all, n, p, delta)[i][s] == ms[i][s] + delta * Count(trail, moves, views, all[i], s, k)
        {
          CountStep(trail, moves, views, all[i], s, k, delta);
        }
      }
    }
  }

  /** One more trail entry adds delta times its contribution to the count. */
  lemma CountStep(trail: seq<Node<int>>, moves: seq<int>, views: seq<seq<int>>, x: Node<int>, s: int,
                  k: nat, delta: int)
    requires 0 < k <= |trail| && k <= |moves| && k <= |views| && 0 <= s
    ensures delta * Count(trail, moves, views, x, s, k) ==
      delta * Count(trail, moves, views, x, s, k - 1) +
      (if trail[k - 1] == x && s == Slot(moves, views, k - 1) then delta else 0)
  {
    var c := Count(trail, moves, views, x, s, k - 1);
    assert delta * (c + 1) == delta * c + delta;
  }

  /** Slot s of board i gains delta under Bump exactly when board i is n and s is p. */
  lemma BumpAt(ms: seq<seq<int>>, all: seq<Node<int>>, n: Node<int>, p: int, delta: int, i: int)
    requires |ms| == |all| && 0 <= i < |ms|
    ensures var r := Bump(ms, all, n, p, delta);
      |r[i]| == |ms[i]| &&
      forall s :: 0 <= s < |ms[i]| ==> r[i][s] == ms[i][s] + (if all[i] == n && s == p then delta else 0)
  {
  }

  /**
   * Rewarding keeps every board free of positive counts on occupied cells when beads are
   * only taken away, or when every move of the trail landed on an empty stored cell.
   */
  lemma {:induction false} RewardedTrained(ms: seq<seq<int>>, all: seq<Node<int>>, trail: seq<Node<int>>,
                                           moves: seq<int>, views: seq<seq<int>>, delta: int, k: nat)
    requires TrainedOn(all, ms) && k <= |trail| && k <= |moves| && k <= |views|
    requires delta <= 0 || SteadyOn(trail, moves, views)
    ensures TrainedOn(all, Rewarded(ms, all, trail, moves, views, delta, k))
  {
    if k > 0 {
      RewardedTrained(ms, all, trail, moves, views, delta, k - 1);
      var before := Rewarded(ms, all, trail, moves, views, delta, k - 1);
      var n, p := trail[k - 1], Slot(moves, views, k - 1);
      var r := Bump(before, all, n, p, delta);
      assert Rewarded(ms, all, trail, moves, views, delta, k) == r;
      forall i | 0 <= i < |all| ensures BeadedOn(all[i].pos.cells, r[i]) {
        assert BeadedOn(all[i].pos.cells, before[i]);
        if all[i] == n && 0 <= p < |before[i]| {
          assert delta > 0 ==> n.pos.cells[p] == Empty;
        }
      }
    }
  }

  /** The view arrays of the boards of a trail. */
  ghost function Cursors(trail: seq<Node<int>>): set<object> {
    set k | 0 <= k < |trail| :: trail[k].game.transformedBoard
  }

  /** The current views of the boards of a trail, entry by entry. */
  ghost function Views(trail: seq<Node<int>>): (vs: seq<seq<int>>)
    reads Cursors(trail)
    ensures |vs| == |trail| && forall k :: 0 <= k < |trail| ==> vs[k] == trail[k].game.transformedBoard[..]
  {
    seq(|trail|, k requires 0 <= k < |trail| reads Cursors(trail) => trail[k].game.transformedBoard[..])
  }

  /** Every bead array of all other than a still holds the decoration recorded in ms. */
  ghost predicate Kept(all: seq<Node<int>>, a: array<int>, ms: seq<seq<int>>)
    reads Beads(all) - {a}
  {
    |ms| == |all| && forall j :: 0 <= j < |all| && all[j].marks != a ==> all[j].marks[..] == ms[j]
  }

  /** No board of a pool other than n shares n's bead array. */
  lemma MarksApart(all: seq<Node<int>>, fp: set<object>, n: Node<int>)
    requires Pool(all, fp) && n in all
    ensures forall j :: 0 <= j < |all| && all[j] != n ==> all[j].marks != n.marks
  {
    var i :| 0 <= i < |all| && all[i] == n;
    forall j | 0 <= j < |all| && all[j] != n ensures all[j].marks != n.marks {
      if j < i { assert all[j].Repr() !! all[i].Repr(); } else { assert all[i].Repr() !! all[j].Repr(); }
    }
  }

  /**
   * Adds delta beads to logical cell m of board n, read and written through its view;
   * the bead arrays of the other boards are left alone.
   */
  method AddBeads(n: Node<int>, m: int, delta: int, ghost all: seq<Node<int>>)
    requires n.Valid() && n in all && 0 <= m < 9
    requires forall j :: 0 <= j < |all| && all[j] != n ==> all[j].marks != n.marks
    modifies n.marks
    ensures n.game.transformedBoard[m] == old(n.game.transformedBoard[m])
    ensures Marks(all) == Bump(old(Marks(all)), all, n, n.game.transformedBoard[m], delta)
  {
    hide BeadCount;
    ghost var ms, p := Marks(all), n.game.transformedBoard[m];
    assert Kept(all, n.marks, ms);
    var c := BeadCount(n, m);
    var _ := SetBeadCount(n, m, c.value + delta);
    assert Kept(all, n.marks, ms);
    forall j | 0 <= j < |all| ensures all[j].marks[..] == Bump(ms, all, n, p, delta)[j] {
      BumpAt(ms, all, n, p, delta, j);
    }
    MarksSame(all, Bump(ms, all, n, p, delta));
  }

  /** Views equal entry by entry are the same views. */
  lemma ViewsSame(trail: seq<Node<int>>, before: seq<seq<int>>)
    requires |before| == |trail|
    requires forall k :: 0 <= k < |trail| ==> trail[k].game.transformedBoard[..] == before[k]
    ensures Views(trail) == before
  {
  }

  /**
   * Every move of a trail names, through the view recorded with it, a stored cell that is
   * empty on its board.
   */
  ghost predicate SteadyOn(trail: seq<Node<int>>, moves: seq<int>, views: seq<seq<int>>) {
    |trail| == |moves| == |views| &&
    forall k :: 0 <= k < |trail| ==>
      0 <= moves[k] < |views[k]| && 0 <= views[k][moves[k]] < |trail[k].pos.cells| &&
      trail[k].pos.cells[views[k][moves[k]]] == Empty
  }

  /** A move naming an empty stored cell through its view keeps the trail steady. */
  lemma SteadyGrows(trail: seq<Node<int>>, moves: seq<int>, views: seq<seq<int>>,
                    n: Node<int>, m: int, t: seq<int>)
    requires SteadyOn(trail, moves, views)
    requires 0 <= m < |t| && 0 <= t[m] < |n.pos.cells| && n.pos.cells[t[m]] == Empty
    ensures SteadyOn(trail + [n], moves + [m], views + [t])
  {
    var trail', moves', views' := trail + [n], moves + [m], views + [t];
    forall k | 0 <= k < |trail'|
      ensures 0 <= moves'[k] < |views'[k]| && 0 <= views'[k][moves'[k]] < |trail'[k].pos.cells| &&
              trail'[k].pos.cells[views'[k][moves'[k]]] == Empty
    {
      if k < |trail| {
        assert trail'[k] == trail[k] && moves'[k] == moves[k] && views'[k] == views[k];
      }
    }
  }

  /** A board whose layer-mate matches it has an empty cell if it is not full. */
  lemma Open(n: Node<int>, live: Position, t: seq<int>)
    requires Matches(n.pos.cells, live.cells, t)
    requires live.level == Occupied(live.cells) && live.level < |live.cells|
    ensures exists i :: 0 <= i < |t| && n.pos.cells[t[i]] == Empty
  {
    var k := FreeCell(live.cells, |live.cells|);
    assert n.pos.cells[t[k]] == Empty;
  }

  /** A board of a trained tree satisfies Beaded. */
  lemma BeadedAt(all: seq<Node<int>>, n: Node<int>)
    requires Trained(all) && n in all
    ensures Beaded(n)
  {
    var i :| 0 <= i < |all| && all[i] == n;
    assert Marks(all)[i] == n.marks[..];
  }

  class Player {
    /** The ten layers of distinct boards, layer i holding the boards i moves into a game. */
    const layers: seq<seq<Node<int>>>
    /** Every board of the tree, and the objects they are made of. */
    ghost const all: seq<Node<int>>
    ghost const fp: set<object>
    /** The bead arrays of the boards, and the other objects of the boards. */
    ghost const beads: set<object>
    ghost const cursors: set<object>
    /** The boards looked up during the current game, and the move picked on each. */
    var gamesVisited: seq<Node<int>>
    var movesPlayed: seq<int>
    /** The mark this player places in the current game. */
    var myMove: Cell

    ghost predicate Valid()
      reads this, fp
    {
      Built() && Trail()
    }

    /** The tree: its layers, its pool of boards, and the boards' objects apart from the beads. */
    ghost predicate Built()
      reads fp
    {
      this !in fp && Tree(layers, all) && Pool(all, fp) && beads == Beads(all) && beads <= fp &&
      cursors == fp - beads &&
      forall i :: 0 <= i < |all| ==> all[i].game.Repr() <= cursors
    }

    /** The trail: as many moves as boards, every board from the tree, every move a cell. */
    ghost predicate Trail()
      reads this
    {
      |gamesVisited| == |movesPlayed| &&
      forall k :: 0 <= k < |gamesVisited| ==> gamesVisited[k] in all && 0 <= movesPlayed[k] < 9
    }

    /**
     * Every move of the trail still names, through its board's current view, a stored
     * cell that is empty on that board.
     */
    ghost predicate Steady()
      reads this, cursors
    {
      Cursors(gamesVisited) <= cursors && SteadyOn(gamesVisited, movesPlayed, Views(gamesVisited))
    }

    /** Every board of the trail lies fewer than level moves into the game. */
    ghost predicate Below(level: int)
      reads this
    {
      forall k :: 0 <= k < |gamesVisited| ==> gamesVisited[k].pos.level < level
    }

    /** Builds the tree, every board holding its initial beads, with an empty trail. */
    constructor ()
      ensures Valid() && Trained(all) && Steady()
      ensures Decorated(all, fp, InitialBeads)
      ensures gamesVisited == [] && movesPlayed == [] && myMove == Empty
    {
      InitialBeadsSeed();
      var ls, a, f := Build(InitialBeads);
      layers, all, fp := ls, a, f;
      beads := Beads(a);
      cursors := f - beads;
      gamesVisited, movesPlayed, myMove := [], [], Empty;
      new;
      BeadsApart(all, fp);
      forall i | 0 <= i < |all| ensures Beaded(all[i]) {
        InitialIsBeaded(all[i]);
      }
    }

    /**
     * Finds the board of the tree that stands for the live board: the live board must not
     * be full and its level must index a layer, and the position in that layer of its first
     * board equal to the live board up to symmetry is the one found, that board's view left
     * mapping the live board onto it. Only cursors of that layer's boards move.
     */
    method Locate(live: Game) returns (r: Result<int>)
      requires Valid() && live.Valid() && live.Repr() !! fp
      modifies fp
      ensures Valid() && live.Valid() && live.Abs() == old(live.Abs())
      ensures Marks(all) == old(Marks(all))
      ensures forall i :: 0 <= i < |all| && all[i].pos.level != live.level ==>
        all[i].game.transformedBoard[..] == old(all[i].game.transformedBoard[..])
      ensures live.level == live.lines * live.columns ==> r == Err(GameFinishedAlready)
      ensures live.level != live.lines * live.columns && live.level >= 10 ==>
        r == Err(IndexOutOfBounds)
      ensures live.level != live.lines * live.columns && live.level < 10 ==>
        (r.Err? <==> !Represented(Layers(live.level), live.Abs())) &&
        (r.Err? ==> r.error == GameNotFound)
      ensures r.Ok? ==>
        var k, b := live.level, r.value;
        k < 10 && 0 <= b < |layers[k]| && layers[k][b] in all && layers[k][b].pos == Layers(k)[b] &&
        layers[k][b].pos.level == k &&
        SymEq(Layers(k)[b], live.Abs()) && !Represented(Layers(k)[..b], live.Abs()) &&
        Matches(Layers(k)[b].cells, live.Abs().cells, layers[k][b].game.transformedBoard[..])
      ensures old(Steady() && Below(live.level)) ==> Steady()
    {
      ghost var steady := Steady() && Below(live.level);
      ghost var vs, ms := Views(gamesVisited), Marks(all);
      var found := Lookup(layers, live, all, fp);
      MarksSame(all, ms);
      if steady {
        forall k | 0 <= k < |gamesVisited|
          ensures gamesVisited[k].game.transformedBoard[..] == vs[k]
        {
          var i :| 0 <= i < |all| && all[i] == gamesVisited[k];
        }
        ViewsSame(gamesVisited, vs);
      }
      r := found;
    }

    /**
     * Plays MENACE's move on the live board: the board it stands for is located, a move is
     * drawn from that board's beads, the pair joins the trail and the move is played.
     * A tree whose boards keep no beads on occupied cells always finds a legal move for a
     * board its layer represents. The board used is the layer's first representative of the
     * live board, at position at, and the move is its Pick through the view Locate left.
     */
    method Play(live: Game, draw: nat) returns (err: Option<Error>, ghost at: int)
      requires Valid() && live.Valid() && live.Repr() !! fp
      modifies this`gamesVisited, this`movesPlayed, fp, live`level, live`gameState, live.board
      ensures Valid() && live.Valid()
      ensures Marks(all) == old(Marks(all))
      ensures old(live.level) == live.lines * live.columns ==> err == Some(GameFinishedAlready)
      ensures old(live.level) != live.lines * live.columns && old(live.level) >= 10 ==>
        err == Some(IndexOutOfBounds)
      ensures (old(live.level) != live.lines * live.columns && old(live.level) < 10 &&
               !Represented(Layers(old(live.level)), old(live.Abs()))) ==>
        err == Some(GameNotFound)
      ensures err == Some(GameFinishedAlready) || err == Some(IndexOutOfBounds) || err == Some(GameNotFound) ==>
        gamesVisited == old(gamesVisited) && movesPlayed == old(movesPlayed)
      ensures err.Some? ==> live.Abs() == old(live.Abs())
      ensures err.None? ==>
        |gamesVisited| == |old(gamesVisited)| + 1 && |movesPlayed| == |old(movesPlayed)| + 1 &&
        gamesVisited[..|old(gamesVisited)|] == old(gamesVisited) &&
        movesPlayed[..|old(movesPlayed)|] == old(movesPlayed) &&
        var n, m := gamesVisited[|old(gamesVisited)|], movesPlayed[|old(movesPlayed)|];
        n.pos.level == old(live.level) && SymEq(n.pos, old(live.Abs())) &&
        0 <= m < 9 && old(live.board[m]) == Empty && live.Abs() == Moved(old(live.Abs()), m)
      ensures old(Trained(all)) ==>
        (err.None? <==> old(live.level) != live.lines * live.columns && old(live.level) < 10 &&
                        Represented(Layers(old(live.level)), old(live.Abs())))
      ensures old(live.level) != live.lines * live.columns && old(live.level) < 10 &&
              Represented(Layers(old(live.level)), old(live.Abs())) ==>
        var k := old(live.level);
        0 <= at < |layers[k]| && layers[k][at] in all && layers[k][at].pos == Layers(k)[at] &&
        SymEq(Layers(k)[at], old(live.Abs())) && !Represented(Layers(k)[..at], old(live.Abs())) &&
        var n := layers[k][at];
        Matches(n.pos.cells, old(live.Abs()).cells, n.game.transformedBoard[..]) &&
        var pick := Pick(n.marks[..], n.game.transformedBoard[..], n.pos.cells, draw);
        (pick.Err? ==> err == Some(pick.error) &&
                       gamesVisited == old(gamesVisited) && movesPlayed == old(movesPlayed)) &&
        (pick.Ok? ==> gamesVisited == old(gamesVisited) + [n] &&
                      movesPlayed == old(movesPlayed) + [pick.value] &&
                      (err.None? <==> pick.value < live.lines * live.columns &&
                                      old(live.board[pick.value]) == Empty) &&
                      (err.None? ==> live.Abs() == Moved(old(live.Abs()), pick.value)))
      ensures old(Trained(all) && Steady() && Below(live.level)) ==> Steady() && Below(live.level)
    {
      ghost var trained := Trained(all);
      var located := Locate(live);
      at := -1;
      if located.Err? {
        return Some(located.error), at;
      }
      var b := located.value;
      at := b;
      var n := layers[live.level][b];
      if trained {
        BeadedAt(all, n);
      }
      err := Move(n, live, draw);
    }

    /**
     * Draws a move from the beads of n, the board found for the live board, records the
     * pair on the trail and plays the move on the live board. A board satisfying Beaded
     * always yields a legal move for a live board that is not full.
     */
    method Move(n: Node<int>, live: Game, draw: nat) returns (err: Option<Error>)
      requires Valid() && n in all && n.Valid() && live.Valid() && live.Repr() !! fp
      requires Matches(n.pos.cells, live.Abs().cells, n.game.transformedBoard[..])
      modifies this`gamesVisited, this`movesPlayed, live`level, live`gameState, live.board
      ensures Valid() && live.Valid() && Marks(all) == old(Marks(all))
      ensures err.Some? ==> live.Abs() == old(live.Abs())
      ensures err == Some(IndexOutOfBounds) ==>
        gamesVisited == old(gamesVisited) && movesPlayed == old(movesPlayed)
      ensures err.Some? && err != Some(IndexOutOfBounds) ==>
        err == Some(IllegalPosition) || err == Some(CellNotEmpty)
      ensures err.None? ==>
        exists m :: 0 <= m < 9 && gamesVisited == old(gamesVisited) + [n] &&
          movesPlayed == old(movesPlayed) + [m] && old(live.board[m]) == Empty &&
          live.Abs() == Moved(old(live.Abs()), m)
      ensures n.marks[..] == old(n.marks[..]) &&
              n.game.transformedBoard[..] == old(n.game.transformedBoard[..])
      ensures var pick := old(Pick(n.marks[..], n.game.transformedBoard[..], n.pos.cells, draw));
        (pick.Err? ==> err == Some(pick.error) &&
                       gamesVisited == old(gamesVisited) && movesPlayed == old(movesPlayed)) &&
        (pick.Ok? ==> gamesVisited == old(gamesVisited) + [n] &&
                      movesPlayed == old(movesPlayed) + [pick.value] &&
                      (err.None? <==> pick.value < live.lines * live.columns &&
                                      old(live.board[pick.value]) == Empty) &&
                      (err.None? ==> live.Abs() == Moved(old(live.Abs()), pick.value)))
      ensures old(Beaded(n)) && old(live.level) < 9 ==> err.None?
      ensures old(Steady() && Beaded(n)) ==> Steady()
      ensures old(Below(live.level)) && n.pos.level == old(live.level) && err.None? ==> Below(live.level)
    {
      hide Valid, Steady, Below, Beaded, Marks, Pick;
      ghost var t := n.game.transformedBoard[..];
      if Beaded(n) && live.level < 9 {
        Open(n, live.Abs(), t);
      }
      var pick := PickMove(n, draw);
      if pick.Err? {
        return Some(pick.error);
      }
      err := Advance(n, pick.value, live);
    }

    /** Records the board n and the move m on the trail, then plays m on the live board. */
    method Advance(n: Node<int>, m: int, live: Game) returns (err: Option<Error>)
      requires Valid() && n in all && 0 <= m < 9 && live.Valid() && live.Repr() !! fp
      modifies this`gamesVisited, this`movesPlayed, live`level, live`gameState, live.board
      ensures Valid() && live.Valid() && Marks(all) == old(Marks(all))
      ensures gamesVisited == old(gamesVisited) + [n] && movesPlayed == old(movesPlayed) + [m]
      ensures n.marks[..] == old(n.marks[..]) &&
              n.game.transformedBoard[..] == old(n.game.transformedBoard[..])
      ensures err.None? <==> m < live.lines * live.columns && old(live.board[m]) == Empty
      ensures err.Some? ==> err == Some(IllegalPosition) || err == Some(CellNotEmpty)
      ensures err.None? ==> live.Abs() == Moved(old(live.Abs()), m)
      ensures err.Some? ==> live.Abs() == old(live.Abs())
      ensures old(var t := n.game.transformedBoard[..];
                  Steady() && m < |t| && 0 <= t[m] < |n.pos.cells| && n.pos.cells[t[m]] == Empty) ==>
              Steady()
      ensures old(Below(live.level)) && n.pos.level == old(live.level) && err.None? ==> Below(live.level)
    {
      Commit(n, m);
      err := Place(live, m);
    }

    /** Plays m on the live board, which shares no object with the tree. */
    method Place(live: Game, m: int) returns (err: Option<Error>)
      requires Valid() && 0 <= m < 9 && live.Valid() && live.Repr() !! fp
      modifies live`level, live`gameState, live.board
      ensures Valid() && live.Valid() && Marks(all) == old(Marks(all))
      ensures err.None? <==> m < live.lines * live.columns && old(live.board[m]) == Empty
      ensures err.Some? ==> err == Some(IllegalPosition) || err == Some(CellNotEmpty)
      ensures err.None? ==> live.Abs() == Moved(old(live.Abs()), m)
      ensures err.Some? ==> live.Abs() == old(live.Abs())
      ensures err.None? ==> live.level == old(live.level) + 1
      ensures old(Steady()) ==> Steady()
    {
      err := live.Play(m);
    }

    /** Appends a board and the move picked on it to the trail. */
    method Commit(n: Node<int>, m: int)
      requires Valid() && n in all && 0 <= m < 9
      modifies this`gamesVisited, this`movesPlayed
      ensures Valid() && Marks(all) == old(Marks(all))
      ensures gamesVisited == old(gamesVisited) + [n] && movesPlayed == old(movesPlayed) + [m]
      ensures var t := n.game.transformedBoard[..];
        old(Steady()) && m < |t| && 0 <= t[m] < |n.pos.cells| && n.pos.cells[t[m]] == Empty ==> Steady()
    {
      ghost var vs := Views(gamesVisited);
      ghost var t := n.game.transformedBoard[..];
      if Steady() && m < |t| && 0 <= t[m] < |n.pos.cells| && n.pos.cells[t[m]] == Empty {
        SteadyGrows(gamesVisited, movesPlayed, vs, n, m, t);
      }
      Append(n, m);
      ViewsSame(gamesVisited, vs + [t]);
    }

    /** Appends a board and a move to the trail, touching nothing else. */
    method Append(n: Node<int>, m: int)
      requires Valid() && n in all && 0 <= m < 9
      modifies this`gamesVisited, this`movesPlayed
      ensures Valid() && Marks(all) == old(Marks(all))
      ensures gamesVisited == old(gamesVisited) + [n] && movesPlayed == old(movesPlayed) + [m]
    {
      gamesVisited := gamesVisited + [n];
      movesPlayed := movesPlayed + [m];
    }

    /**
     * Reports the result of a finished game: a game still being played is an error and
     * changes nothing; otherwise every move of the trail is rewarded with the beads of the
     * result for this player's mark (a draw 1, a win 3, a loss -1) and the trail is cleared.
     * Rewarding a trail whose moves all landed on empty cells keeps the tree trained.
     */
    method GameFinished(result: GameState) returns (err: Option<Error>)
      requires Valid()
      modifies this`gamesVisited, this`movesPlayed, beads
      ensures Valid()
      ensures err.Some? <==> result == Playing
      ensures err.Some? ==>
        err.value == GameNotFinished &&
        gamesVisited == old(gamesVisited) && movesPlayed == old(movesPlayed) && Marks(all) == old(Marks(all))
      ensures err.None? ==>
        gamesVisited == [] && movesPlayed == [] &&
        Marks(all) == Rewarded(old(Marks(all)), all, old(gamesVisited), old(movesPlayed),
                               old(Views(gamesVisited)), Payoff(result, myMove), old(|gamesVisited|))
      ensures old(Trained(all) && Steady()) ==> Trained(all) && Steady()
    {
      if result == Playing {
        return Some(GameNotFinished);
      }
      Reinforce(Payoff(result, myMove));
      return None;
    }

    /**
     * Adds delta beads to the move of each trail entry, through the board's current view,
     * and clears the trail.
     */
    method Reinforce(delta: int)
      requires Valid()
      modifies this`gamesVisited, this`movesPlayed, beads
      ensures Valid() && gamesVisited == [] && movesPlayed == []
      ensures Marks(all) == Rewarded(old(Marks(all)), all, old(gamesVisited), old(movesPlayed),
                                     old(Views(gamesVisited)), delta, old(|gamesVisited|))
      ensures old(Trained(all) && (delta <= 0 || Steady())) ==> Trained(all) && Steady()
    {
      ghost var ms, vs := Marks(all), Views(gamesVisited);
      ghost var trained := Trained(all) && (delta <= 0 || Steady());
      Walk(gamesVisited, movesPlayed, delta);
      if trained {
        RewardedTrained(ms, all, gamesVisited, movesPlayed, vs, delta, |gamesVisited|);
      }
      Clear();
    }

    /** Empties the trail, touching nothing else. */
    method Clear()
      requires Valid()
      modifies this`gamesVisited, this`movesPlayed
      ensures Valid() && Marks(all) == old(Marks(all)) && gamesVisited == [] && movesPlayed == []
    {
      gamesVisited, movesPlayed := [], [];
    }

    /** Adds delta beads to the move of each entry of a trail, entry after entry. */
    method Walk(trail: seq<Node<int>>, moves: seq<int>, delta: int)
      requires Valid()
      requires |trail| == |moves| && forall j :: 0 <= j < |trail| ==> trail[j] in all && 0 <= moves[j] < 9
      modifies beads
      ensures Valid() && Views(trail) == old(Views(trail))
      ensures Marks(all) == Rewarded(old(Marks(all)), all, trail, moves, old(Views(trail)), delta, |trail|)
    {
      ghost var ms, vs := Marks(all), Views(trail);
      var k := 0;
      while k < |trail|
        invariant 0 <= k <= |trail|
        invariant Valid() && Views(trail) == vs
        invariant RewardedSoFar(ms, trail, moves, vs, delta, k)
      {
        Reward(trail, moves, delta, k, ms, vs);
        k := k + 1;
      }
    }

    /** The bead arrays hold ms with the first k entries of the trail rewarded. */
    ghost predicate RewardedSoFar(ms: seq<seq<int>>, trail: seq<Node<int>>, moves: seq<int>,
                                  vs: seq<seq<int>>, delta: int, k: nat)
      reads fp
    {
      |ms| == |all| && k <= |trail| && k <= |moves| && k <= |vs| && Beads(all) <= fp &&
      Marks(all) == Rewarded(ms, all, trail, moves, vs, delta, k)
    }

    /** Adds delta beads to the move of entry k of a trail whose first k entries are rewarded. */
    method Reward(trail: seq<Node<int>>, moves: seq<int>, delta: int, k: nat,
                  ghost ms: seq<seq<int>>, ghost vs: seq<seq<int>>)
      requires Valid() && k < |trail| && |ms| == |all|
      requires |trail| == |moves| && forall j :: 0 <= j < |trail| ==> trail[j] in all && 0 <= moves[j] < 9
      requires Views(trail) == vs && Marks(all) == Rewarded(ms, all, trail, moves, vs, delta, k)
      modifies beads
      ensures Valid() && Views(trail) == vs && Marks(all) == Rewarded(ms, all, trail, moves, vs, delta, k + 1)
    {
      assert Slot(moves, vs, k) == trail[k].game.transformedBoard[moves[k]];
      RewardedNext(ms, all, trail, moves, vs, delta, k);
      Bead(trail[k], moves[k], delta, trail);
    }

    /** Adds delta beads to logical cell m of board n, read and written through its view. */
    method Bead(n: Node<int>, m: int, delta: int, ghost trail: seq<Node<int>>)
      requires Valid() && n in all && 0 <= m < 9 && forall k :: 0 <= k < |trail| ==> trail[k] in all
      modifies n.marks
      ensures Valid() && n.game.transformedBoard[m] == old(n.game.transformedBoard[m])
      ensures Marks(all) == Bump(old(Marks(all)), all, n, n.game.transformedBoard[m], delta)
      ensures Views(trail) == old(Views(trail))
    {
      assert Standing(all, cursors);
      assert n.marks !in Cursors(trail) by {
        forall k | 0 <= k < |trail| ensures trail[k].game.transformedBoard in cursors {
          var j :| 0 <= j < |all| && all[j] == trail[k];
        }
      }
      MarksApart(all, fp, n);
      AddBeads(n, m, delta, all);
      StandingPool(all, fp, cursors);
    }

    /** Assigns the mark this player places in the next game. */
    method StartNewGame(mover: Cell)
      modifies this`myMove
      ensures myMove == mover
    {
      myMove := mover;
    }
  }
}
