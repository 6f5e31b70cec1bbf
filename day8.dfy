/** Treetop tree house: a grid of tree heights, which trees can be seen from
    outside the grid, and each tree's scenic score. */
module Day8 {
  import opened Wrappers
  import opened Text
  import opened Grids

  /** `TreeValues`: a `width` × `height` grid stored row by row. */
  datatype TreeValues<T> = TreeValues(width: nat, height: nat, values: seq<T>)

  /** The vector holds exactly one value per cell. */
  predicate Valid<T>(t: TreeValues<T>) {
    |t.values| == Area(t.width, t.height)
  }

  /** `TreeValues::get`: the value at column x, row y. The index asserts
      allow x == width and y == height; the vector access itself must be in
      range. */
  function Get<T>(t: TreeValues<T>, x: nat, y: nat): T
    requires x <= t.width && y <= t.height && Idx(t.width, x, y) < |t.values|
  {
    t.values[Idx(t.width, x, y)]
  }

  /** `TreeHeights::height_at` for a cell of a well-formed grid. */
  function HeightAt(g: TreeValues<nat>, x: nat, y: nat): nat
    requires Valid(g) && x < g.width && y < g.height
  {
    IdxBound(g.width, g.height, x, y);
    Get(g, x, y)
  }

  /** Each cell of a well-formed grid is read from its own place in the
      vector, and every place of the vector is some cell. */
  lemma HeightAtRowMajor(g: TreeValues<nat>, i: nat)
    requires Valid(g) && g.width > 0 && i < |g.values|
    ensures Col(g.width, i) < g.width && Row(g.width, i) < g.height
    ensures HeightAt(g, Col(g.width, i), Row(g.width, i)) == g.values[i]
  {
    RowColIdx(g.width, g.height, i);
  }

  // ---------------------------------------------------------------- parsing

  /** The digits of one trimmed row; any other character is the `unwrap`
      panic of `to_digit(10)`. */
  function ParseRow(row: string): (r: Option<seq<nat>>)
    ensures r.Some? <==> AllDigits(row)
    ensures r.Some? ==> |r.value| == |row| && forall k :: 0 <= k < |row| ==> r.value[k] == DigitValue(row[k])
  {
    if row == [] then Some([])
    else if !IsDigit(row[0]) then None
    else
      match ParseRow(row[1..])
      case None => None
      case Some(rest) => Some([DigitValue(row[0])] + rest)
  }

  function ParseRows(lines: seq<string>): (r: Option<seq<seq<nat>>>)
    ensures r.Some? ==> |r.value| == |lines|
    ensures r.Some? ==> forall k :: 0 <= k < |lines| ==> ParseRow(Trim(lines[k])) == Some(r.value[k])
  {
    if lines == [] then Some([])
    else
      match (ParseRow(Trim(lines[0])), ParseRows(lines[1..]))
      case (Some(row), Some(rows)) => Some([row] + rows)
      case _ => None
  }

  /** The rows laid end to end: the order in which `from_str` pushes them. */
  function Concat(rows: seq<seq<nat>>): seq<nat> {
    if rows == [] then [] else rows[0] + Concat(rows[1..])
  }

  /** The length of the longest row, 0 without rows. */
  function MaxLength(rows: seq<seq<nat>>): (m: nat)
    ensures forall k :: 0 <= k < |rows| ==> |rows[k]| <= m
    ensures rows != [] ==> exists k :: 0 <= k < |rows| && |rows[k]| == m
  {
    if rows == [] then 0
    else
      var rest := MaxLength(rows[1..]);
      assert forall k :: 1 <= k < |rows| ==> rows[k] == rows[1..][k - 1];
      if |rows[0]| >= rest then |rows[0]| else rest
  }

  /** `TreeHeights::from_str`: one row per line, the width of the longest
      trimmed row, the digits in reading order. */
  function ParseTrees(s: string): (r: Option<TreeValues<nat>>)
    ensures r.Some? ==> r.value.height == |Lines(s)|
    ensures r.Some? ==> forall k :: 0 <= k < |Lines(s)| ==> |Trim(Lines(s)[k])| <= r.value.width
  {
    match ParseRows(Lines(s))
    case None => None
    case Some(rows) => Some(TreeValues(MaxLength(rows), |rows|, Concat(rows)))
  }

  /** Rows of one common length make a well-formed grid. */
  lemma {:induction false} ConcatLength(rows: seq<seq<nat>>, w: nat)
    requires forall k :: 0 <= k < |rows| ==> |rows[k]| == w
    ensures |Concat(rows)| == Area(w, |rows|)
  {
    if rows != [] {
      ConcatLength(rows[1..], w);
    }
  }

  lemma ParseTreesValid(s: string)
    requires ParseRows(Lines(s)).Some?
    requires forall k :: 0 <= k < |ParseRows(Lines(s)).value| ==>
      |ParseRows(Lines(s)).value[k]| == MaxLength(ParseRows(Lines(s)).value)
    ensures ParseTrees(s).Some? && Valid(ParseTrees(s).value)
  {
    var rows := ParseRows(Lines(s)).value;
    ConcatLength(rows, MaxLength(rows));
  }

  /** The heights of `test_trees_fromstr`, read row-major. */
  lemma HeightAtExample()
    ensures HeightAt(TreeValues(2, 2, [1, 2, 3, 4]), 0, 0) == 1
    ensures HeightAt(TreeValues(2, 2, [1, 2, 3, 4]), 1, 0) == 2
    ensures HeightAt(TreeValues(2, 2, [1, 2, 3, 4]), 0, 1) == 3
    ensures HeightAt(TreeValues(2, 2, [1, 2, 3, 4]), 1, 1) == 4
  {
    assert Area(2, 2) == 4;
  }

  // ------------------------------------------------------------- visibility

  /** The four edges a tree can be seen from. `North` is row 0, the first
      line of the input. */
  datatype Edge = West | East | North | South

  predicate Horizontal(e: Edge) {
    e == West || e == East
  }

  /** Every tree strictly between the tree at (x, y) and edge `e` is
      lower than it. */
  predicate VisibleFrom(g: TreeValues<nat>, e: Edge, x: nat, y: nat)
    requires Valid(g) && x < g.width && y < g.height
  {
    var h := HeightAt(g, x, y);
    match e
    case West => forall x' :: 0 <= x' < x ==> HeightAt(g, x', y) < h
    case East => forall x' :: x < x' < g.width ==> HeightAt(g, x', y) < h
    case North => forall y' :: 0 <= y' < y ==> HeightAt(g, x, y') < h
    case South => forall y' :: y < y' < g.height ==> HeightAt(g, x, y') < h
  }

  /** A tree is visible when it is visible from some edge. */
  predicate Visible(g: TreeValues<nat>, x: nat, y: nat)
    requires Valid(g) && x < g.width && y < g.height
  {
    VisibleFrom(g, West, x, y) || VisibleFrom(g, East, x, y)
    || VisibleFrom(g, North, x, y) || VisibleFrom(g, South, x, y)
  }

  /** Trees on the edge of the grid are always visible. */
  lemma EdgeVisible(g: TreeValues<nat>, x: nat, y: nat)
    requires Valid(g) && x < g.width && y < g.height
    requires x == 0 || y == 0 || x == g.width - 1 || y == g.height - 1
    ensures Visible(g, x, y)
  {
  }

  /** Length of one scan line: a row for `West`/`East`, a column otherwise. */
  function LineLength(g: TreeValues<nat>, e: Edge): nat {
    if Horizontal(e) then g.width else g.height
  }

  /** The number of scan lines from edge `e`. */
  function LineCount(g: TreeValues<nat>, e: Edge): nat {
    if Horizontal(e) then g.height else g.width
  }

  /** The `k`-th cell met on scan line `n` going inward from edge `e`. */
  function Cell(g: TreeValues<nat>, e: Edge, n: nat, k: nat): (c: (nat, nat))
    requires n < LineCount(g, e) && k < LineLength(g, e)
    ensures c.0 < g.width && c.1 < g.height
  {
    match e
    case West => (k, n)
    case East => (g.width - 1 - k, n)
    case North => (n, k)
    case South => (n, g.height - 1 - k)
  }

  /** The scan line a cell lies on. */
  function LineOf(e: Edge, x: nat, y: nat): nat {
    if Horizontal(e) then y else x
  }

  /** How far into its scan line a cell lies. */
  function PosInLine(g: TreeValues<nat>, e: Edge, x: nat, y: nat): nat
    requires x < g.width && y < g.height
  {
    match e
    case West => x
    case East => g.width - 1 - x
    case North => y
    case South => g.height - 1 - y
  }

  /** Line and position name a cell, and a cell has a line and position. */
  lemma CellPos(g: TreeValues<nat>, e: Edge, x: nat, y: nat)
    requires x < g.width && y < g.height
    ensures LineOf(e, x, y) < LineCount(g, e) && PosInLine(g, e, x, y) < LineLength(g, e)
    ensures Cell(g, e, LineOf(e, x, y), PosInLine(g, e, x, y)) == (x, y)
  {
  }

  /** The `k`-th cell of line `n` lies on line `n` at position `k`. */
  lemma CellLinePos(g: TreeValues<nat>, e: Edge, n: nat, k: nat)
    requires n < LineCount(g, e) && k < LineLength(g, e)
    ensures var c := Cell(g, e, n, k);
            LineOf(e, c.0, c.1) == n && PosInLine(g, e, c.0, c.1) == k
  {
  }

  /** The cells of scan line `n` from edge `e`, outermost first. */
  function LineCells(g: TreeValues<nat>, e: Edge, n: nat): (r: seq<(nat, nat)>)
    requires n < LineCount(g, e)
    ensures |r| == LineLength(g, e)
    ensures forall k :: 0 <= k < |r| ==> r[k] == Cell(g, e, n, k)
  {
    seq(LineLength(g, e), k requires 0 <= k < LineLength(g, e) => Cell(g, e, n, k))
  }

  function HeightOf(g: TreeValues<nat>, c: (nat, nat)): nat
    requires Valid(g) && c.0 < g.width && c.1 < g.height
  {
    HeightAt(g, c.0, c.1)
  }

  /** The tallest of the first `k` trees of a scan line, `None` before the
      first: the `tallest` the scan carries. */
  function Tallest(g: TreeValues<nat>, e: Edge, n: nat, k: nat): (r: Option<nat>)
    requires Valid(g) && n < LineCount(g, e) && k <= LineLength(g, e)
    ensures r.None? <==> k == 0
    ensures r.Some? ==> forall j :: 0 <= j < k ==> HeightOf(g, Cell(g, e, n, j)) <= r.value
    ensures r.Some? ==> exists j :: 0 <= j < k && HeightOf(g, Cell(g, e, n, j)) == r.value
  {
    if k == 0 then None
    else
      var h := HeightOf(g, Cell(g, e, n, k - 1));
      match Tallest(g, e, n, k - 1)
      case None => Some(h)
      case Some(t) => Some(if t >= h then t else h)
  }

  /** A tree no lower than one met before it on the scan is not visible
      from the scan's edge. */
  lemma BlockedMeansHidden(g: TreeValues<nat>, e: Edge, n: nat, j: nat, k: nat)
    requires Valid(g) && n < LineCount(g, e) && j < k < LineLength(g, e)
    requires HeightOf(g, Cell(g, e, n, j)) >= HeightOf(g, Cell(g, e, n, k))
    ensures !VisibleFrom(g, e, Cell(g, e, n, k).0, Cell(g, e, n, k).1)
  {
    var d := Cell(g, e, n, j);
    assert HeightAt(g, d.0, d.1) >= HeightOf(g, Cell(g, e, n, k));
  }

  /** A tree taller than everything met before it on the scan is visible
      from the scan's edge. */
  lemma TallerMeansVisible(g: TreeValues<nat>, e: Edge, n: nat, k: nat)
    requires Valid(g) && n < LineCount(g, e) && k < LineLength(g, e)
    requires forall j :: 0 <= j < k ==> HeightOf(g, Cell(g, e, n, j)) < HeightOf(g, Cell(g, e, n, k))
    ensures VisibleFrom(g, e, Cell(g, e, n, k).0, Cell(g, e, n, k).1)
  {
    var c := Cell(g, e, n, k);
    var h := HeightOf(g, c);
    match e
    case West =>
      forall x' | 0 <= x' < c.0 ensures HeightAt(g, x', c.1) < h {
        assert Cell(g, e, n, x') == (x', c.1);
      }
    case East =>
      forall x' | c.0 < x' < g.width ensures HeightAt(g, x', c.1) < h {
        assert Cell(g, e, n, g.width - 1 - x') == (x', c.1);
      }
    case North =>
      forall y' | 0 <= y' < c.1 ensures HeightAt(g, c.0, y') < h {
        assert Cell(g, e, n, y') == (c.0, y');
      }
    case South =>
      forall y' | c.1 < y' < g.height ensures HeightAt(g, c.0, y') < h {
        assert Cell(g, e, n, g.height - 1 - y') == (c.0, y');
      }
  }

  /** The scan marks a tree exactly when it is visible from the scan's edge:
      nothing met before it is as tall. */
  lemma TallestMeansVisible(g: TreeValues<nat>, e: Edge, n: nat, k: nat)
    requires Valid(g) && n < LineCount(g, e) && k < LineLength(g, e)
    ensures var t := Tallest(g, e, n, k);
            var c := Cell(g, e, n, k);
            !(t.Some? && t.value >= HeightOf(g, c)) <==> VisibleFrom(g, e, c.0, c.1)
  {
    var t := Tallest(g, e, n, k);
    if t.Some? && t.value >= HeightOf(g, Cell(g, e, n, k)) {
      var j :| 0 <= j < k && HeightOf(g, Cell(g, e, n, j)) == t.value;
      BlockedMeansHidden(g, e, n, j, k);
    } else {
      TallerMeansVisible(g, e, n, k);
    }
  }

  /** The mark of the tree at (x, y). */
  function Marked(v: array<bool>, g: TreeValues<nat>, x: nat, y: nat): bool
    reads v
    requires v.Length == Area(g.width, g.height) && x < g.width && y < g.height
  {
    MarkIn(v[..], g, x, y)
  }

  /** The mark of the tree at (x, y) in a snapshot of the marks. */
  function MarkIn(marks: seq<bool>, g: TreeValues<nat>, x: nat, y: nat): bool
    requires |marks| == Area(g.width, g.height) && x < g.width && y < g.height
  {
    IdxBound(g.width, g.height, x, y);
    marks[Idx(g.width, x, y)]
  }

  /** The scan of line `n` has passed its first `k` cells: those of them
      visible from `e` are marked, and every other mark is as in `start`. */
  ghost predicate ScannedTo(marks: seq<bool>, start: seq<bool>, g: TreeValues<nat>, e: Edge, n: nat, k: nat)
    requires Valid(g)
  {
    && |marks| == |start| == Area(g.width, g.height)
    && forall x: nat, y: nat :: x < g.width && y < g.height ==>
      MarkIn(marks, g, x, y) == (MarkIn(start, g, x, y)
        || (LineOf(e, x, y) == n && PosInLine(g, e, x, y) < k && VisibleFrom(g, e, x, y)))
  }

  /** The `check` closure of `visibilities` on values: a tree taller than
      everything met so far on the scan is marked visible and becomes the
      tallest; otherwise neither the marks nor the tallest change. */
  function CheckStep(g: TreeValues<nat>, marks: seq<bool>, x: nat, y: nat, tallest: Option<nat>): (r: (Option<nat>, seq<bool>))
    requires Valid(g) && x < g.width && y < g.height && |marks| == Area(g.width, g.height)
    ensures |r.1| == |marks|
  {
    IdxBound(g.width, g.height, x, y);
    var h := HeightAt(g, x, y);
    if tallest.Some? && tallest.value >= h then (tallest, marks)
    else (Some(h), marks[Idx(g.width, x, y) := true])
  }

  /** One step of a scan line: checking cell `k` carries the tallest tree of
      the first `k` cells to that of the first `k + 1`, and extends the
      marked part of the line by one cell. */
  lemma ScanStep(g: TreeValues<nat>, e: Edge, n: nat, k: nat, start: seq<bool>, before: seq<bool>, tallest: Option<nat>)
    requires Valid(g) && n < LineCount(g, e) && k < LineLength(g, e)
    requires tallest == Tallest(g, e, n, k) && ScannedTo(before, start, g, e, n, k)
    ensures var c := Cell(g, e, n, k);
            var r := CheckStep(g, before, c.0, c.1, tallest);
            r.0 == Tallest(g, e, n, k + 1) && ScannedTo(r.1, start, g, e, n, k + 1)
  {
    TallestMeansVisible(g, e, n, k);
    forall x: nat, y: nat | x < g.width && y < g.height
      ensures var c := Cell(g, e, n, k);
              MarkIn(CheckStep(g, before, c.0, c.1, tallest).1, g, x, y) == (MarkIn(start, g, x, y)
                || (LineOf(e, x, y) == n && PosInLine(g, e, x, y) < k + 1 && VisibleFrom(g, e, x, y)))
    {
      ScanStepAt(g, e, n, k, start, before, tallest, x, y);
    }
  }

  /** `ScanStep` at the tree at (x, y): only the checked cell can change its
      mark, and it is marked exactly when it is visible. */
  lemma ScanStepAt(g: TreeValues<nat>, e: Edge, n: nat, k: nat, start: seq<bool>, before: seq<bool>, tallest: Option<nat>, x: nat, y: nat)
    requires Valid(g) && n < LineCount(g, e) && k < LineLength(g, e)
    requires tallest == Tallest(g, e, n, k) && ScannedTo(before, start, g, e, n, k)
    requires x < g.width && y < g.height
    ensures var c := Cell(g, e, n, k);
            MarkIn(CheckStep(g, before, c.0, c.1, tallest).1, g, x, y) == (MarkIn(start, g, x, y)
              || (LineOf(e, x, y) == n && PosInLine(g, e, x, y) < k + 1 && VisibleFrom(g, e, x, y)))
  {
    var c := Cell(g, e, n, k);
    if (x, y) == c {
      ScanStepHere(g, e, n, k, start, before, tallest);
    } else {
      ScanStepElsewhere(g, e, n, k, start, before, tallest, x, y);
    }
  }

  /** The checked cell itself is marked exactly when it is visible. */
  lemma ScanStepHere(g: TreeValues<nat>, e: Edge, n: nat, k: nat, start: seq<bool>, before: seq<bool>, tallest: Option<nat>)
    requires Valid(g) && n < LineCount(g, e) && k < LineLength(g, e)
    requires tallest == Tallest(g, e, n, k) && ScannedTo(before, start, g, e, n, k)
    ensures var c := Cell(g, e, n, k);
            MarkIn(CheckStep(g, before, c.0, c.1, tallest).1, g, c.0, c.1)
              == (MarkIn(start, g, c.0, c.1) || VisibleFrom(g, e, c.0, c.1))
  {
    var c := Cell(g, e, n, k);
    var after := CheckStep(g, before, c.0, c.1, tallest).1;
    IdxBound(g.width, g.height, c.0, c.1);
    CellLinePos(g, e, n, k);
    TallestMeansVisible(g, e, n, k);
    assert MarkIn(before, g, c.0, c.1) == MarkIn(start, g, c.0, c.1);
    if tallest.Some? && tallest.value >= HeightAt(g, c.0, c.1) {
      assert after == before && !VisibleFrom(g, e, c.0, c.1);
    } else {
      assert after == before[Idx(g.width, c.0, c.1) := true] && VisibleFrom(g, e, c.0, c.1);
    }
  }

  /** Every other tree keeps its mark, and lies outside the checked cell. */
  lemma ScanStepElsewhere(g: TreeValues<nat>, e: Edge, n: nat, k: nat, start: seq<bool>, before: seq<bool>, tallest: Option<nat>, x: nat, y: nat)
    requires Valid(g) && n < LineCount(g, e) && k < LineLength(g, e)
    requires |before| == Area(g.width, g.height)
    requires x < g.width && y < g.height && (x, y) != Cell(g, e, n, k)
    ensures var c := Cell(g, e, n, k);
            MarkIn(CheckStep(g, before, c.0, c.1, tallest).1, g, x, y) == MarkIn(before, g, x, y)
    ensures !(LineOf(e, x, y) == n && PosInLine(g, e, x, y) == k)
  {
    var c := Cell(g, e, n, k);
    IdxBound(g.width, g.height, x, y);
    if Idx(g.width, x, y) == Idx(g.width, c.0, c.1) {
      IdxInjective(g.width, x, y, c.0, c.1);
    }
    CellPos(g, e, x, y);
  }

  /** `check` on the marks array: the new tallest and marks are those of
      `CheckStep`. */
  method Check(g: TreeValues<nat>, v: array<bool>, x: nat, y: nat, tallest: Option<nat>)
    returns (t: Option<nat>)
    requires Valid(g) && x < g.width && y < g.height && v.Length == Area(g.width, g.height)
    modifies v
    ensures (t, v[..]) == CheckStep(g, old(v[..]), x, y, tallest)
  {
    IdxBound(g.width, g.height, x, y);
    var height := HeightAt(g, x, y);
    if tallest.Some? && tallest.value >= height {
      return tallest;
    }
    v[Idx(g.width, x, y)] := true;
    t := Some(height);
  }

  /** One inner loop of `visibilities`: scan line `n` from edge `e`, marking
      the trees visible from that edge; cells off the line keep their mark. */
  method ScanLine(g: TreeValues<nat>, v: array<bool>, e: Edge, n: nat)
    requires Valid(g) && v.Length == Area(g.width, g.height) && n < LineCount(g, e)
    modifies v
    ensures forall x: nat, y: nat :: x < g.width && y < g.height ==>
      Marked(v, g, x, y) == (old(Marked(v, g, x, y)) || (LineOf(e, x, y) == n && VisibleFrom(g, e, x, y)))
  {
    var tallest: Option<nat> := None;
    for k := 0 to LineLength(g, e)
      invariant tallest == Tallest(g, e, n, k)
      invariant ScannedTo(v[..], old(v[..]), g, e, n, k)
    {
      tallest := ScanCell(g, v, e, n, k, tallest, old(v[..]));
    }
  }

  /** The body of the inner loop of `visibilities`: checks cell `k` of line
      `n` and so extends the scanned part of the line by one cell. */
  method ScanCell(g: TreeValues<nat>, v: array<bool>, e: Edge, n: nat, k: nat, tallest: Option<nat>, ghost start: seq<bool>)
    returns (t: Option<nat>)
    requires Valid(g) && v.Length == Area(g.width, g.height) && n < LineCount(g, e) && k < LineLength(g, e)
    requires tallest == Tallest(g, e, n, k) && ScannedTo(v[..], start, g, e, n, k)
    modifies v
    ensures t == Tallest(g, e, n, k + 1) && ScannedTo(v[..], start, g, e, n, k + 1)
  {
    var c := Cell(g, e, n, k);
    ScanStep(g, e, n, k, start, v[..], tallest);
    t := Check(g, v, c.0, c.1, tallest);
  }

  /** All scan lines from edge `e`: one of the four outer loops of
      `visibilities`. */
  method ScanAll(g: TreeValues<nat>, v: array<bool>, e: Edge)
    requires Valid(g) && v.Length == Area(g.width, g.height)
    modifies v
    ensures forall x: nat, y: nat :: x < g.width && y < g.height ==>
      Marked(v, g, x, y) == (old(Marked(v, g, x, y)) || VisibleFrom(g, e, x, y))
  {
    for n := 0 to LineCount(g, e)
      invariant forall x: nat, y: nat :: x < g.width && y < g.height ==>
        Marked(v, g, x, y) == (old(Marked(v, g, x, y)) || (LineOf(e, x, y) < n && VisibleFrom(g, e, x, y)))
    {
      ScanLine(g, v, e, n);
    }
    forall x: nat, y: nat | x < g.width && y < g.height
      ensures LineOf(e, x, y) < LineCount(g, e)
    {
      CellPos(g, e, x, y);
    }
  }

  /** `TreeHeights::visibilities`: every tree visible from some edge is
      marked, and no other. */
  method Visibilities(g: TreeValues<nat>) returns (v: array<bool>)
    requires Valid(g)
    ensures fresh(v) && v.Length == Area(g.width, g.height)
    ensures forall x: nat, y: nat :: x < g.width && y < g.height ==>
      Marked(v, g, x, y) == Visible(g, x, y)
  {
    v := new bool[Area(g.width, g.height)](_ => false);
    forall x: nat, y: nat | x < g.width && y < g.height ensures !Marked(v, g, x, y) {
      IdxBound(g.width, g.height, x, y);
    }
    ScanAll(g, v, West);
    assert forall x: nat, y: nat :: x < g.width && y < g.height ==>
      Marked(v, g, x, y) == VisibleFrom(g, West, x, y);
    ScanAll(g, v, East);
    assert forall x: nat, y: nat :: x < g.width && y < g.height ==>
      Marked(v, g, x, y) == (VisibleFrom(g, West, x, y) || VisibleFrom(g, East, x, y));
    ScanAll(g, v, North);
    assert forall x: nat, y: nat :: x < g.width && y < g.height ==>
      Marked(v, g, x, y) == (VisibleFrom(g, West, x, y) || VisibleFrom(g, East, x, y) || VisibleFrom(g, North, x, y));
    ScanAll(g, v, South);
  }

  /** The visibility of every tree in vector order. */
  function VisibleSeq(g: TreeValues<nat>): (r: seq<bool>)
    requires Valid(g)
    ensures |r| == Area(g.width, g.height)
  {
    if g.width == 0 then AreaOfNothing(g.height); []
    else
      seq(Area(g.width, g.height), i requires 0 <= i < Area(g.width, g.height) =>
        RowColIdx(g.width, g.height, i);
        Visible(g, Col(g.width, i), Row(g.width, i)))
  }

  lemma {:induction false} AreaOfNothing(rows: nat)
    ensures Area(0, rows) == 0
  {
    if rows > 0 {
      AreaOfNothing(rows - 1);
    }
  }

  /** `TreeVisibilities::count`: the number of `true` entries. */
  function CountTrue(s: seq<bool>): (n: nat)
    ensures n <= |s|
  {
    if s == [] then 0 else CountTrue(s[..|s| - 1]) + (if s[|s| - 1] then 1 else 0)
  }

  /** The count is the number of positions holding `true`. */
  lemma {:induction false} CountTrueCardinality(s: seq<bool>)
    ensures CountTrue(s) == |set i | 0 <= i < |s| && s[i]|
  {
    if s != [] {
      var init := s[..|s| - 1];
      CountTrueCardinality(init);
      var before := set i | 0 <= i < |init| && init[i];
      var all := set i | 0 <= i < |s| && s[i];
      if s[|s| - 1] {
        assert all == before + {|s| - 1};
      } else {
        assert all == before;
      }
    }
  }

  /** Counting marks that are all set except possibly the one at `k`. */
  lemma {:induction false} CountTrueAllBut(s: seq<bool>, k: int)
    requires forall i :: 0 <= i < |s| && i != k ==> s[i]
    ensures CountTrue(s) == |s| - (if 0 <= k < |s| && !s[k] then 1 else 0)
  {
    if s != [] {
      CountTrueAllBut(s[..|s| - 1], k);
    }
  }

  /** The first grid of `test_get_visibilities`: every tree is on the edge. */
  lemma VisibilityExampleEdges(g: TreeValues<nat>)
    requires g == TreeValues(2, 2, [0, 0, 0, 0])
    ensures Valid(g) && CountTrue(VisibleSeq(g)) == 4
  {
    assert Area(2, 2) == 4;
    var v := VisibleSeq(g);
    forall i | 0 <= i < 4 ensures v[i] {
      RowColIdx(2, 2, i);
      EdgeVisible(g, Col(2, i), Row(2, i));
    }
    CountTrueAllBut(v, -1);
  }

  /** The third grid of `test_get_visibilities`: a lower tree in the middle is
      hidden, so 8 of 9 trees are visible. */
  lemma VisibilityExampleHidden(g: TreeValues<nat>)
    requires g == TreeValues(3, 3, [1, 1, 1, 1, 0, 1, 1, 1, 1])
    ensures Valid(g) && CountTrue(VisibleSeq(g)) == 8
  {
    assert Area(3, 3) == 9;
    var v := VisibleSeq(g);
    forall i | 0 <= i < 9 && i != 4 ensures v[i] {
      RowColIdx(3, 3, i);
      EdgeVisible(g, Col(3, i), Row(3, i));
    }
    assert Col(3, 4) == 1 && Row(3, 4) == 1;
    assert HeightAt(g, 0, 1) == 1 && HeightAt(g, 2, 1) == 1;
    assert HeightAt(g, 1, 0) == 1 && HeightAt(g, 1, 2) == 1;
    assert !v[4];
    CountTrueAllBut(v, 4);
  }

  /** The fourth grid of `test_get_visibilities`: a taller tree in the middle
      is visible too, so all 9 are. */
  lemma VisibilityExampleTall(g: TreeValues<nat>)
    requires g == TreeValues(3, 3, [1, 1, 1, 1, 2, 1, 1, 1, 1])
    ensures Valid(g) && CountTrue(VisibleSeq(g)) == 9
  {
    assert Area(3, 3) == 9;
    var v := VisibleSeq(g);
    forall i | 0 <= i < 9 && i != 4 ensures v[i] {
      RowColIdx(3, 3, i);
      EdgeVisible(g, Col(3, i), Row(3, i));
    }
    assert Col(3, 4) == 1 && Row(3, 4) == 1;
    assert HeightAt(g, 1, 1) == 2 && HeightAt(g, 0, 1) == 1;
    assert VisibleFrom(g, West, 1, 1);
    CountTrueAllBut(v, -1);
  }

  /** `p1::solve`: parse, mark, count. A grid whose rows differ in length is
      not modelled and gives `None`. */
  method SolveP1(input: string) returns (r: Option<nat>)
    ensures r.Some? <==> ParseTrees(input).Some? && Valid(ParseTrees(input).value)
    ensures r.Some? ==> r.value == CountTrue(VisibleSeq(ParseTrees(input).value))
  {
    var parsed := ParseTrees(input);
    if parsed.None? || !Valid(parsed.value) {
      return None;
    }
    var g := parsed.value;
    var v := Visibilities(g);
    MarksAreVisibleSeq(g, v[..]);
    return Some(CountTrue(v[..]));
  }

  /** Marks that agree with `Visible` at every tree are `VisibleSeq`. */
  lemma MarksAreVisibleSeq(g: TreeValues<nat>, marks: seq<bool>)
    requires Valid(g) && |marks| == Area(g.width, g.height)
    requires forall x: nat, y: nat :: x < g.width && y < g.height ==> MarkIn(marks, g, x, y) == Visible(g, x, y)
    ensures marks == VisibleSeq(g)
  {
    if g.width == 0 {
      AreaOfNothing(g.height);
    } else {
      forall i | 0 <= i < |marks| ensures marks[i] == VisibleSeq(g)[i] {
        RowColIdx(g.width, g.height, i);
      }
    }
  }

  // ----------------------------------------------------------- scenic score

  /** How many trees lie between the tree at (x, y) and edge `e`. */
  function RayLength(g: TreeValues<nat>, e: Edge, x: nat, y: nat): nat
    requires x < g.width && y < g.height
  {
    match e
    case West => x
    case East => g.width - 1 - x
    case North => y
    case South => g.height - 1 - y
  }

  /** The `i`-th tree from (x, y) toward edge `e`, nearest first. */
  function RayCell(g: TreeValues<nat>, e: Edge, x: nat, y: nat, i: nat): (c: (nat, nat))
    requires x < g.width && y < g.height && i < RayLength(g, e, x, y)
    ensures c.0 < g.width && c.1 < g.height
  {
    match e
    case West => (x - 1 - i, y)
    case East => (x + 1 + i, y)
    case North => (x, y - 1 - i)
    case South => (x, y + 1 + i)
  }

  /** The heights seen looking from (x, y) toward edge `e`. */
  function Ray(g: TreeValues<nat>, e: Edge, x: nat, y: nat): (r: seq<nat>)
    requires Valid(g) && x < g.width && y < g.height
    ensures |r| == RayLength(g, e, x, y)
    ensures forall i :: 0 <= i < |r| ==> r[i] == HeightOf(g, RayCell(g, e, x, y, i))
  {
    seq(RayLength(g, e, x, y), i requires 0 <= i < RayLength(g, e, x, y) => HeightOf(g, RayCell(g, e, x, y, i)))
  }

  /** The viewing distance along a ray from a tree of height `h`: the trees
      up to and including the first one at least as tall, or all of them. */
  function ViewDistance(ray: seq<nat>, h: nat): (r: nat)
    ensures r <= |ray| && (r == 0 <==> ray == [])
    ensures forall j :: 0 <= j < r - 1 ==> ray[j] < h
    ensures 0 < r < |ray| ==> ray[r - 1] >= h
  {
    if ray == [] then 0
    else if ray[0] >= h then 1
    else 1 + ViewDistance(ray[1..], h)
  }

  /** The trees of a ray that are all lower than `h` do not end the view. */
  lemma {:induction false} ViewDistanceSkip(ray: seq<nat>, h: nat, i: nat)
    requires i <= |ray| && forall j :: 0 <= j < i ==> ray[j] < h
    ensures ViewDistance(ray, h) == i + ViewDistance(ray[i..], h)
  {
    if i > 0 {
      ViewDistanceSkip(ray[1..], h, i - 1);
      assert ray[1..][i - 1..] == ray[i..];
    }
  }

  /** A tree is visible from an edge exactly when its view toward that edge
      is clear; then it sees every tree up to the edge. */
  lemma VisibleIffClearView(g: TreeValues<nat>, e: Edge, x: nat, y: nat)
    requires Valid(g) && x < g.width && y < g.height
    ensures VisibleFrom(g, e, x, y) <==> forall j :: 0 <= j < |Ray(g, e, x, y)| ==> Ray(g, e, x, y)[j] < HeightAt(g, x, y)
    ensures VisibleFrom(g, e, x, y) ==> ViewDistance(Ray(g, e, x, y), HeightAt(g, x, y)) == RayLength(g, e, x, y)
  {
    var ray := Ray(g, e, x, y);
    var h := HeightAt(g, x, y);
    if VisibleFrom(g, e, x, y) {
      forall j | 0 <= j < |ray| ensures ray[j] < h {
        var c := RayCell(g, e, x, y, j);
        assert ray[j] == HeightAt(g, c.0, c.1);
      }
      ViewDistanceSkip(ray, h, |ray|);
    } else {
      match e
      case West =>
        var x' :| 0 <= x' < x && HeightAt(g, x', y) >= h;
        assert RayCell(g, e, x, y, x - 1 - x') == (x', y);
      case East =>
        var x' :| x < x' < g.width && HeightAt(g, x', y) >= h;
        assert RayCell(g, e, x, y, x' - x - 1) == (x', y);
      case North =>
        var y' :| 0 <= y' < y && HeightAt(g, x, y') >= h;
        assert RayCell(g, e, x, y, y - 1 - y') == (x, y');
      case South =>
        var y' :| y < y' < g.height && HeightAt(g, x, y') >= h;
        assert RayCell(g, e, x, y, y' - y - 1) == (x, y');
    }
  }

  /** A product of counts, zero exactly when a factor is. */
  function Mul(a: nat, b: nat): (r: nat)
    ensures r == 0 <==> a == 0 || b == 0
  {
    a * b
  }

  /** The scenic score: the product of the four viewing distances. */
  function ScenicScore(g: TreeValues<nat>, x: nat, y: nat): nat
    requires Valid(g) && x < g.width && y < g.height
  {
    var h := HeightAt(g, x, y);
    Mul(Mul(Mul(ViewDistance(Ray(g, West, x, y), h), ViewDistance(Ray(g, East, x, y), h)),
            ViewDistance(Ray(g, South, x, y), h)),
        ViewDistance(Ray(g, North, x, y), h))
  }

  /** A tree on the edge sees nothing in one direction and scores 0; an
      inner tree scores at least 1. */
  lemma ScenicScoreZero(g: TreeValues<nat>, x: nat, y: nat)
    requires Valid(g) && x < g.width && y < g.height
    ensures ScenicScore(g, x, y) == 0 <==> x == 0 || y == 0 || x == g.width - 1 || y == g.height - 1
  {
    var h := HeightAt(g, x, y);
    var a, b := ViewDistance(Ray(g, West, x, y), h), ViewDistance(Ray(g, East, x, y), h);
    var c, d := ViewDistance(Ray(g, South, x, y), h), ViewDistance(Ray(g, North, x, y), h);
    assert a == 0 <==> x == 0;
    assert b == 0 <==> x == g.width - 1;
    assert c == 0 <==> y == g.height - 1;
    assert d == 0 <==> y == 0;
  }

  /** The tree of the `p2::test_solve` grid that scores 8, the grid's
      answer: it sees 2 trees west, 2 east, 1 south and 2 north. */
  lemma ScenicScoreExample(g: TreeValues<nat>)
    requires g == TreeValues(5, 5, [3, 0, 3, 7, 3,
                                    2, 5, 5, 1, 2,
                                    6, 5, 3, 3, 2,
                                    3, 3, 5, 4, 9,
                                    3, 5, 3, 9, 0])
    ensures Valid(g) && ScenicScore(g, 2, 3) == 8
  {
    assert Area(5, 5) == 25;
    var h := HeightAt(g, 2, 3);
    assert h == 5;
    var west, east := Ray(g, West, 2, 3), Ray(g, East, 2, 3);
    var south, north := Ray(g, South, 2, 3), Ray(g, North, 2, 3);
    assert west == [3, 3];
    assert east == [4, 9];
    assert south == [3];
    assert north == [3, 5, 3];
    assert ViewDistance(west, h) == 2;
    assert ViewDistance(east, h) == 2;
    assert ViewDistance(south, h) == 1;
    assert ViewDistance(north, h) == 2;
  }

  /** One counting loop of `scenic_score_at`: step away from (x, y) toward
      edge `e`, counting each tree, and stop after one at least as tall. */
  method CountView(g: TreeValues<nat>, e: Edge, x: nat, y: nat) returns (dist: nat)
    requires Valid(g) && x < g.width && y < g.height
    ensures dist == ViewDistance(Ray(g, e, x, y), HeightAt(g, x, y))
  {
    var maxHeight := HeightAt(g, x, y);
    ghost var ray := Ray(g, e, x, y);
    dist := 0;
    var i := 0;
    while i < RayLength(g, e, x, y)
      invariant i <= |ray| && dist == i
      invariant forall j :: 0 <= j < i ==> ray[j] < maxHeight
    {
      var c := RayCell(g, e, x, y, i);
      dist := dist + 1;
      if HeightAt(g, c.0, c.1) >= maxHeight {
        ViewDistanceSkip(ray, maxHeight, i);
        return;
      }
      i := i + 1;
    }
    ViewDistanceSkip(ray, maxHeight, i);
  }

  /** `TreeHeights::scenic_score_at`. */
  method ScenicScoreAt(g: TreeValues<nat>, x: nat, y: nat) returns (s: nat)
    requires Valid(g) && x < g.width && y < g.height
    ensures s == ScenicScore(g, x, y)
  {
    var left := CountView(g, West, x, y);
    var right := CountView(g, East, x, y);
    var up := CountView(g, South, x, y);
    var down := CountView(g, North, x, y);
    s := Mul(Mul(Mul(left, right), up), down);
  }

  /** `s` is the largest scenic score of the grid, reached by some tree. */
  ghost predicate IsBestScore(g: TreeValues<nat>, s: nat)
    requires Valid(g)
  {
    (exists x: nat, y: nat :: x < g.width && y < g.height && ScenicScore(g, x, y) == s)
    && forall x: nat, y: nat :: x < g.width && y < g.height ==> ScenicScore(g, x, y) <= s
  }

  /** The largest scenic score in a grid, `None` for a grid without trees
      (the `unwrap` of an empty maximum). */
  method MaxScenicScore(g: TreeValues<nat>) returns (r: Option<nat>)
    requires Valid(g)
    ensures r.Some? <==> g.width > 0 && g.height > 0
    ensures r.Some? ==> IsBestScore(g, r.value)
  {
    r := None;
    ghost var bestX: nat, bestY: nat := 0, 0;
    for x := 0 to g.width
      invariant r.Some? <==> x > 0 && g.height > 0
      invariant r.Some? ==> bestX < g.width && bestY < g.height && ScenicScore(g, bestX, bestY) == r.value
      invariant r.Some? ==> forall x': nat, y: nat :: x' < x && y < g.height ==> ScenicScore(g, x', y) <= r.value
    {
      for y := 0 to g.height
        invariant r.Some? <==> (x > 0 && g.height > 0) || y > 0
        invariant r.Some? ==> bestX < g.width && bestY < g.height && ScenicScore(g, bestX, bestY) == r.value
        invariant r.Some? ==> forall x': nat, y': nat :: ((x' < x && y' < g.height) || (x' == x && y' < y)) ==> ScenicScore(g, x', y') <= r.value
      {
        var s := ScenicScoreAt(g, x, y);
        ghost var prev := r;
        if r.None? || s > r.value {
          r := Some(s);
          bestX, bestY := x, y;
        }
        forall x': nat, y': nat | (x' < x && y' < g.height) || (x' == x && y' < y + 1)
          ensures ScenicScore(g, x', y') <= r.value
        {
          if x' != x || y' != y {
            assert prev.Some? && ScenicScore(g, x', y') <= prev.value;
          }
        }
      }
    }
  }

  /** `p2::solve`: the best scenic score. A grid whose rows differ in length
      is not modelled and gives `None`. */
  method SolveP2(input: string) returns (r: Option<nat>)
    ensures r.Some? <==> ParseTrees(input).Some? && Valid(ParseTrees(input).value)
                         && ParseTrees(input).value.width > 0 && ParseTrees(input).value.height > 0
    ensures r.Some? ==> IsBestScore(ParseTrees(input).value, r.value)
  {
    var parsed := ParseTrees(input);
    if parsed.None? || !Valid(parsed.value) {
      return None;
    }
    r := MaxScenicScore(parsed.value);
  }
}
