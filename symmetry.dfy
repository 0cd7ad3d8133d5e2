/**
 * The symmetry views of a board. A view is an index map t: in the view, logical
 * cell k shows the stored cell t[k]. Views are built by composing one elementary
 * step at a time onto the running map, following a fixed schedule: on a square
 * board the identity, three quarter turns, a row reversal and three more quarter
 * turns; on other boards the identity, a row reversal, a column reversal and a
 * second row reversal.
 */
module Symmetry {
  import opened Rules

  /** One elementary step of the schedule. */
  datatype Step = Keep | Rotate | HFlip | VFlip

  /** The number of views the cursor visits: 8 on square boards, 4 otherwise. */
  function MaxDepth(lines: int, columns: int): (m: int)
    ensures m == 8 <==> lines == columns
    ensures m == 4 <==> lines != columns
    ensures 4 <= m <= 8
  {
    if lines == columns then 8 else 4
  }

  /** The step that takes the cursor from depth d to depth d + 1. */
  function StepAt(lines: int, columns: int, d: int): (s: Step)
    ensures s == Rotate ==> lines == columns
    ensures d == 0 ==> s == Keep
  {
    if lines == columns then
      (if d == 0 then Keep else if d == 4 then HFlip else Rotate)
    else
      (if d == 0 then Keep else if d == 2 then VFlip else HFlip)
  }

  /**
   * The cell of the old map that logical cell k reads after the step: a row
   * reversal mirrors the column, a column reversal mirrors the row, and a quarter
   * turn sends row r, column c to row c, column lines - 1 - r.
   */
  function Source(lines: int, columns: int, s: Step, k: int): int
    requires columns > 0
  {
    var r, c := k / columns, k % columns;
    match s
    case Keep => k
    case HFlip => Index(columns, r, columns - 1 - c)
    case VFlip => Index(columns, lines - 1 - r, c)
    case Rotate => Index(columns, lines - 1 - c, r)
  }

  /** The inverse of Source: the logical cell that reads stored cell k. */
  function Target(lines: int, columns: int, s: Step, k: int): int
    requires columns > 0
  {
    var r, c := k / columns, k % columns;
    match s
    case Keep => k
    case HFlip => Index(columns, r, columns - 1 - c)
    case VFlip => Index(columns, lines - 1 - r, c)
    case Rotate => Index(columns, c, lines - 1 - r)
  }

  /** A step that is allowed on a board of this shape: quarter turns only on squares. */
  predicate Fits(lines: int, columns: int, s: Step) {
    lines > 0 && columns > 0 && (s == Rotate ==> lines == columns)
  }

  /** Every step maps a cell of the board to a cell of the board. */
  lemma SourceInRange(lines: int, columns: int, s: Step, k: int)
    requires Fits(lines, columns, s) && 0 <= k < lines * columns
    ensures 0 <= Source(lines, columns, s, k) < lines * columns
    ensures 0 <= Target(lines, columns, s, k) < lines * columns
  {
    IndexOfRowCol(columns, k);
    RowInRange(lines, columns, k);
    var r, c := k / columns, k % columns;
    match s
    case Keep =>
    case HFlip => IndexInRange(lines, columns, r, columns - 1 - c);
    case VFlip => IndexInRange(lines, columns, lines - 1 - r, c);
    case Rotate =>
      IndexInRange(lines, columns, lines - 1 - c, r);
      IndexInRange(lines, columns, c, lines - 1 - r);
  }

  /** Target undoes Source, so no two cells read the same stored cell. */
  lemma SourceTarget(lines: int, columns: int, s: Step, k: int)
    requires Fits(lines, columns, s) && 0 <= k < lines * columns
    ensures Target(lines, columns, s, Source(lines, columns, s, k)) == k
    ensures Source(lines, columns, s, Target(lines, columns, s, k)) == k
  {
    IndexOfRowCol(columns, k);
    RowInRange(lines, columns, k);
    var r, c := k / columns, k % columns;
    match s
    case Keep =>
    case HFlip => RowColOfIndex(columns, r, columns - 1 - c);
    case VFlip => RowColOfIndex(columns, lines - 1 - r, c);
    case Rotate =>
      RowColOfIndex(columns, lines - 1 - c, r);
      RowColOfIndex(columns, c, lines - 1 - r);
  }

  /** t is a permutation of the cell indices 0 .. n - 1. */
  ghost predicate IsPerm(t: seq<int>, n: int) {
    |t| == n &&
    (forall k :: 0 <= k < n ==> 0 <= t[k] < n) &&
    (forall i, j :: 0 <= i < j < n ==> t[i] != t[j])
  }

  /** The identity map. */
  function Identity(n: nat): (t: seq<int>)
    ensures |t| == n && forall k :: 0 <= k < n ==> t[k] == k
  {
    seq(n, k => k)
  }

  /** The running map after one more step: logical cell k reads what Source(k) read before. */
  function Apply(t: seq<int>, lines: int, columns: int, s: Step): (u: seq<int>)
    requires Fits(lines, columns, s) && |t| == lines * columns
    ensures |u| == |t|
  {
    forall k | 0 <= k < |t| ensures 0 <= Source(lines, columns, s, k) < |t| {
      SourceInRange(lines, columns, s, k);
    }
    seq(|t|, k requires 0 <= k < |t| => t[Source(lines, columns, s, k)])
  }

  /** The map the cursor holds at depth d. */
  function View(lines: int, columns: int, d: int): (t: seq<int>)
    requires lines > 0 && columns > 0 && 0 <= d <= MaxDepth(lines, columns)
    ensures |t| == lines * columns
    decreases d
  {
    if d == 0 then Identity(lines * columns)
    else Apply(View(lines, columns, d - 1), lines, columns, StepAt(lines, columns, d - 1))
  }

  /** A step keeps a permutation a permutation. */
  lemma ApplyPermutes(t: seq<int>, lines: int, columns: int, s: Step)
    requires Fits(lines, columns, s) && IsPerm(t, lines * columns)
    ensures IsPerm(Apply(t, lines, columns, s), lines * columns)
  {
    var u := Apply(t, lines, columns, s);
    forall k | 0 <= k < |u| ensures 0 <= u[k] < lines * columns {
      SourceInRange(lines, columns, s, k);
    }
    forall i, j | 0 <= i < j < |u| ensures u[i] != u[j] {
      SourceInRange(lines, columns, s, i);
      SourceInRange(lines, columns, s, j);
      SourceTarget(lines, columns, s, i);
      SourceTarget(lines, columns, s, j);
    }
  }

  /** Every view the cursor reaches is a permutation of the cells. */
  lemma {:induction false} ViewPermutes(lines: int, columns: int, d: int)
    requires lines > 0 && columns > 0 && 0 <= d <= MaxDepth(lines, columns)
    ensures IsPerm(View(lines, columns, d), lines * columns)
    decreases d
  {
    if d > 0 {
      ViewPermutes(lines, columns, d - 1);
      ApplyPermutes(View(lines, columns, d - 1), lines, columns, StepAt(lines, columns, d - 1));
    }
  }

  /** The first view the cursor shows, at depth 1, is still the identity. */
  lemma FirstViewIdentity(lines: int, columns: int)
    requires lines > 0 && columns > 0
    ensures View(lines, columns, 1) == Identity(lines * columns)
  {
  }

  /** Looking at a through the map t gives b, cell for cell. */
  ghost predicate Matches(a: seq<Cell>, b: seq<Cell>, t: seq<int>) {
    |t| == |b| && forall k :: 0 <= k < |b| ==> 0 <= t[k] < |a| && a[t[k]] == b[k]
  }

  /**
   * p and q are the same game up to symmetry: equal dimensions, winning length and
   * level, and one of the views 1 .. MaxDepth of p shows exactly q's cells.
   */
  ghost predicate SymEq(p: Position, q: Position) {
    p.lines == q.lines && p.columns == q.columns && p.level == q.level &&
    p.sizeWin == q.sizeWin && p.lines > 0 && p.columns > 0 &&
    exists d :: 1 <= d <= MaxDepth(p.lines, p.columns) &&
      Matches(p.cells, q.cells, View(p.lines, p.columns, d))
  }

  /** None of the views 1 .. depth of a shows exactly b. */
  ghost predicate NoViewMatches(a: seq<Cell>, b: seq<Cell>, lines: int, columns: int, depth: int) {
    lines > 0 && columns > 0 && depth <= MaxDepth(lines, columns) &&
    forall d :: 1 <= d <= depth ==> !Matches(a, b, View(lines, columns, d))
  }

  /** A view that does not match extends the run of views that do not. */
  lemma NoViewMatchesStep(a: seq<Cell>, b: seq<Cell>, lines: int, columns: int, depth: int)
    requires NoViewMatches(a, b, lines, columns, depth - 1) && 1 <= depth <= MaxDepth(lines, columns)
    requires !Matches(a, b, View(lines, columns, depth))
    ensures NoViewMatches(a, b, lines, columns, depth)
  {
    forall d | 1 <= d <= depth ensures !Matches(a, b, View(lines, columns, d)) {
      if d < depth {
        assert 1 <= d <= depth - 1;
      }
    }
  }

  /** When no view of p matches q, p and q are not equal up to symmetry. */
  lemma NoViewMatchesNotSymEq(p: Position, q: Position)
    requires NoViewMatches(p.cells, q.cells, p.lines, p.columns, MaxDepth(p.lines, p.columns))
    ensures !SymEq(p, q)
  {
  }

  /** A view of p that shows exactly q's cells makes p and q equal up to symmetry. */
  lemma ViewMatchSymEq(p: Position, q: Position, d: int)
    requires p.lines == q.lines && p.columns == q.columns && p.level == q.level
    requires p.sizeWin == q.sizeWin && p.lines > 0 && p.columns > 0
    requires 1 <= d <= MaxDepth(p.lines, p.columns)
    requires Matches(p.cells, q.cells, View(p.lines, p.columns, d))
    ensures SymEq(p, q)
  {
  }

  /** Two boards with the same dimensions, level and cells are equal up to symmetry. */
  lemma SameIsSymEq(p: Position, q: Position)
    requires WellShaped(p) && p.lines == q.lines && p.columns == q.columns
    requires p.sizeWin == q.sizeWin && p.level == q.level && p.cells == q.cells
    ensures SymEq(p, q)
  {
    FirstViewIdentity(p.lines, p.columns);
    assert Matches(p.cells, q.cells, View(p.lines, p.columns, 1));
  }

  /** Equality up to symmetry keeps the number of occupied cells. */
  lemma SymEqOccupied(p: Position, q: Position)
    requires WellShaped(p) && WellShaped(q) && SymEq(p, q)
    ensures Occupied(p.cells) == Occupied(q.cells)
  {
    var d :| 1 <= d <= MaxDepth(p.lines, p.columns) &&
      Matches(p.cells, q.cells, View(p.lines, p.columns, d));
    var t := View(p.lines, p.columns, d);
    ViewPermutes(p.lines, p.columns, d);
    var w := seq(|p.cells|, i requires 0 <= i < |p.cells| => if p.cells[i] == Empty then 0 else 1);
    var wt := seq(|t|, k requires 0 <= k < |t| => w[t[k]]);
    OccupiedIsSum(p.cells, w, |w|);
    OccupiedIsSum(q.cells, wt, |wt|);
    assert w[..|w|] == w && wt[..|wt|] == wt;
    PermSum(w, t);
  }

  // ---------------------------------------------------------------------------
  // Sums of integer sequences, read directly or through a permutation

  function Sum(s: seq<int>): int {
    if s == [] then 0 else Sum(s[..|s| - 1]) + s[|s| - 1]
  }

  /** Sum of w read through t: w[t[0]] + ... + w[t[n - 1]]. */
  function SumVia(w: seq<int>, t: seq<int>, n: int): int
    requires 0 <= n <= |t| && forall k :: 0 <= k < |t| ==> 0 <= t[k] < |w|
  {
    if n == 0 then 0 else SumVia(w, t, n - 1) + w[t[n - 1]]
  }

  /** The count of occupied cells is the sum of their 0/1 weights. */
  lemma {:induction false} OccupiedIsSum(cells: seq<Cell>, w: seq<int>, n: int)
    requires |w| == |cells| && 0 <= n <= |cells|
    requires forall i :: 0 <= i < |cells| ==> w[i] == if cells[i] == Empty then 0 else 1
    ensures CountOccupied(cells, n) == Sum(w[..n])
  {
    if n > 0 {
      OccupiedIsSum(cells, w, n - 1);
      assert w[..n][..n - 1] == w[..n - 1];
    }
  }

  /** Removing the element at v splits it off the sum. */
  lemma {:induction false} SumRemove(w: seq<int>, v: int)
    requires 0 <= v < |w|
    ensures Sum(w) == Sum(w[..v] + w[v + 1..]) + w[v]
  {
    if v == |w| - 1 {
      assert w[..v] + w[v + 1..] == w[..|w| - 1];
    } else {
      var w' := w[..|w| - 1];
      SumRemove(w', v);
      assert w[..v] + w[v + 1..] == (w'[..v] + w'[v + 1..]) + [w[|w| - 1]];
      assert (w[..v] + w[v + 1..])[..|w| - 2] == w'[..v] + w'[v + 1..];
    }
  }

  /**
   * Reading w through a permutation of its indices leaves the total unchanged: the
   * weighted pick's running value reaches the full total after the last cell.
   */
  lemma {:induction false} PermSum(w: seq<int>, t: seq<int>)
    requires IsPerm(t, |w|)
    ensures Sum(seq(|t|, k requires 0 <= k < |t| => w[t[k]])) == Sum(w)
  {
    PermSumVia(w, t);
    SumViaIsSum(w, t, |t|);
  }

  /** The running sum through t equals the sum of the sequence read through t. */
  lemma {:induction false} SumViaIsSum(w: seq<int>, t: seq<int>, n: int)
    requires 0 <= n <= |t| && forall k :: 0 <= k < |t| ==> 0 <= t[k] < |w|
    ensures SumVia(w, t, n) == Sum(seq(n, k requires 0 <= k < n => w[t[k]]))
  {
    if n > 0 {
      SumViaIsSum(w, t, n - 1);
      var s := seq(n, k requires 0 <= k < n => w[t[k]]);
      assert s[..n - 1] == seq(n - 1, k requires 0 <= k < n - 1 => w[t[k]]);
    }
  }

  /** PermSum for the running sum, by removing the last index read. */
  lemma {:induction false} PermSumVia(w: seq<int>, t: seq<int>)
    requires IsPerm(t, |w|)
    ensures SumVia(w, t, |t|) == Sum(w)
    decreases |t|
  {
    if |t| > 0 {
      var n := |t| - 1;
      var v := t[n];
      var w' := w[..v] + w[v + 1..];
      var t' := seq(n, k requires 0 <= k < n => if t[k] > v then t[k] - 1 else t[k]);
      forall i, j | 0 <= i < j < n ensures t'[i] != t'[j] {
        assert t[i] != t[j] && t[i] != v && t[j] != v;
      }
      PermSumVia(w', t');
      SumViaShift(w, t, w', t', v, n);
      SumRemove(w, v);
    }
  }

  /** The shifted map reads the same values from the shortened sequence. */
  lemma {:induction false} SumViaShift(w: seq<int>, t: seq<int>, w': seq<int>, t': seq<int>, v: int, n: int)
    requires 0 <= v < |w| && w' == w[..v] + w[v + 1..]
    requires 0 <= n <= |t| && |t'| == n
    requires forall k :: 0 <= k < |t| ==> 0 <= t[k] < |w| && (k < n ==> t[k] != v)
    requires forall k :: 0 <= k < n ==> t'[k] == if t[k] > v then t[k] - 1 else t[k]
    ensures forall k :: 0 <= k < |t'| ==> 0 <= t'[k] < |w'|
    ensures SumVia(w, t, n) == SumVia(w', t', n)
  {
    assert forall k :: 0 <= k < n ==> w'[t'[k]] == w[t[k]];
    if n > 0 {
      SumViaShift(w, t, w', t'[..n - 1], v, n - 1);
      assert SumVia(w', t'[..n - 1], n - 1) == SumVia(w', t', n - 1) by {
        SumViaPrefix(w', t', n - 1);
      }
    }
  }

  /** The running sum only reads the first n entries of the map. */
  lemma {:induction false} SumViaPrefix(w: seq<int>, t: seq<int>, n: int)
    requires 0 <= n <= |t| && forall k :: 0 <= k < |t| ==> 0 <= t[k] < |w|
    ensures SumVia(w, t[..n], n) == SumVia(w, t, n)
    decreases n
  {
    if n > 0 {
      SumViaPrefix(w, t[..n], n - 1);
      SumViaPrefix(w, t, n - 1);
      assert t[..n][..n - 1] == t[..n - 1];
    }
  }

  // ---------------------------------------------------------------------------
  // The index maps in place

  /**
   * Composes one step onto the map held in a, in place: the row reversal, column
   * reversal or quarter turn the cursor applies between two depths.
   */
  method ApplyInPlace(a: array<int>, lines: int, columns: int, s: Step)
    requires Fits(lines, columns, s) && a.Length == lines * columns
    modifies a
    ensures a[..] == Apply(old(a[..]), lines, columns, s)
  {
    var t := a[..];
    var k := 0;
    while k < a.Length
      invariant 0 <= k <= a.Length
      invariant forall i :: 0 <= i < k ==> a[i] == Apply(t, lines, columns, s)[i]
      invariant forall i :: k <= i < a.Length ==> a[i] == t[i]
    {
      SourceInRange(lines, columns, s, k);
      a[k] := t[Source(lines, columns, s, k)];
      k := k + 1;
    }
  }
}
