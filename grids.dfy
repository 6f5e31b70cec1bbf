/** Row-major layout of a `width` × `height` grid in one flat vector: cell
    (x, y) lives at `y * width + x`. The products are written as a
    recursive `Area` so that index arithmetic stays linear for the solver;
    `AreaIsProduct` ties it to multiplication. */
module Grids {

  /** The number of cells in `rows` rows of `width` cells: `rows * width`. */
  function Area(width: nat, rows: nat): nat {
    if rows == 0 then 0 else Area(width, rows - 1) + width
  }

  lemma {:induction false} AreaIsProduct(width: nat, rows: nat)
    ensures Area(width, rows) == rows * width
  {
    if rows > 0 {
      AreaIsProduct(width, rows - 1);
      assert rows * width == (rows - 1) * width + width;
    }
  }

  /** More rows never make fewer cells. */
  lemma {:induction false} AreaMonotone(width: nat, a: nat, b: nat)
    requires a <= b
    ensures Area(width, a) <= Area(width, b)
    decreases b
  {
    if a < b {
      AreaMonotone(width, a, b - 1);
    }
  }

  /** `idx(x, y) = y * width + x`. */
  function Idx(width: nat, x: nat, y: nat): nat {
    Area(width, y) + x
  }

  lemma IdxIsRowMajor(width: nat, x: nat, y: nat)
    ensures Idx(width, x, y) == y * width + x
  {
    AreaIsProduct(width, y);
  }

  /** The column of a flat index. */
  function Col(width: nat, i: nat): nat
    requires width > 0
  {
    i % width
  }

  /** The row of a flat index. */
  function Row(width: nat, i: nat): nat
    requires width > 0
  {
    i / width
  }

  /** An in-range cell has an index below the area of the grid. */
  lemma IdxBound(width: nat, height: nat, x: nat, y: nat)
    requires x < width && y < height
    ensures Idx(width, x, y) < Area(width, height)
  {
    AreaMonotone(width, y + 1, height);
  }

  /** Different in-range cells have different indices. */
  lemma IdxInjective(width: nat, x1: nat, y1: nat, x2: nat, y2: nat)
    requires x1 < width && x2 < width
    requires Idx(width, x1, y1) == Idx(width, x2, y2)
    ensures x1 == x2 && y1 == y2
  {
    if y1 < y2 {
      AreaMonotone(width, y1 + 1, y2);
    } else if y2 < y1 {
      AreaMonotone(width, y2 + 1, y1);
    }
  }

  /** Splitting a flat index into row and column and joining them again
      gives the index back, and both parts are in range. */
  lemma RowColIdx(width: nat, height: nat, i: nat)
    requires width > 0 && i < Area(width, height)
    ensures Col(width, i) < width && Row(width, i) < height
    ensures Idx(width, Col(width, i), Row(width, i)) == i
  {
    var r, c := i / width, i % width;
    AreaIsProduct(width, r);
    AreaIsProduct(width, height);
    assert i == r * width + c;
    if r >= height {
      AreaMonotone(width, height, r);
    }
  }

  /** Joining a row and column and splitting the index gives them back. */
  lemma IdxRowCol(width: nat, x: nat, y: nat)
    requires x < width
    ensures Col(width, Idx(width, x, y)) == x && Row(width, Idx(width, x, y)) == y
  {
    var i := Idx(width, x, y);
    IdxBound(width, y + 1, x, y);
    RowColIdx(width, y + 1, i);
    IdxInjective(width, x, y, Col(width, i), Row(width, i));
  }
}
