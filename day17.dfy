/** Day 17: rocks of five shapes fall into a chamber seven units wide, pushed
    sideways by jets of gas, and settle into a tower. */
module Day17 {
  import opened Wrappers
  import opened Text
  import opened Arith

  /** A cell, with y growing upwards ("quadrant 1"). */
  datatype Pos = Pos(x: int, y: int)

  function Add(a: Pos, b: Pos): Pos {
    Pos(a.x + b.x, a.y + b.y)
  }

  function Sub(a: Pos, b: Pos): Pos {
    Pos(a.x - b.x, a.y - b.y)
  }

  /** The chamber's inner width: the walls stand at x = 0 and x = 8. */
  const Width := 7
  /** A new rock's left edge is two units from the left wall. */
  const LeftSpace := 2
  /** A new rock's bottom edge is three units above the tower (or floor). */
  const BottomSpace := 3
  /** The tower is never moved: line deletion is not part of the program. */
  const Origin := Pos(0, 0)

  // Bounds

  /** `Iterator::min().unwrap_or_default()` over integers. */
  function MinOf(xs: seq<int>): (r: int)
    ensures |xs| == 0 ==> r == 0
    ensures |xs| > 0 ==> r in xs && forall k :: 0 <= k < |xs| ==> r <= xs[k]
  {
    if |xs| == 0 then 0
    else if |xs| == 1 then xs[0]
    else
      var m := MinOf(xs[1..]);
      assert forall k :: 1 <= k < |xs| ==> xs[k] == xs[1..][k - 1];
      if xs[0] < m then xs[0] else m
  }

  /** `Iterator::max().unwrap_or_default()` over integers. */
  function MaxOf(xs: seq<int>): (r: int)
    ensures |xs| == 0 ==> r == 0
    ensures |xs| > 0 ==> r in xs && forall k :: 0 <= k < |xs| ==> xs[k] <= r
  {
    if |xs| == 0 then 0
    else if |xs| == 1 then xs[0]
    else
      var m := MaxOf(xs[1..]);
      assert forall k :: 1 <= k < |xs| ==> xs[k] == xs[1..][k - 1];
      if xs[0] > m then xs[0] else m
  }

  function Xs(ps: seq<Pos>): seq<int> {
    seq(|ps|, k requires 0 <= k < |ps| => ps[k].x)
  }

  function Ys(ps: seq<Pos>): seq<int> {
    seq(|ps|, k requires 0 <= k < |ps| => ps[k].y)
  }

  /** The cells of a list, as the `HashSet` collects them. */
  function Cells(ps: seq<Pos>): set<Pos> {
    set p | p in ps
  }

  function XsOf(s: set<Pos>): set<int> {
    set p | p in s :: p.x
  }

  function YsOf(s: set<Pos>): set<int> {
    set p | p in s :: p.y
  }

  /** `m` is the larger of `base` and every value of `vals`. */
  predicate IsMaxWith(m: int, base: int, vals: set<int>) {
    base <= m && (forall v :: v in vals ==> v <= m) && (m == base || m in vals)
  }

  /** `m` is the smaller of `base` and every value of `vals`. */
  predicate IsMinWith(m: int, base: int, vals: set<int>) {
    m <= base && (forall v :: v in vals ==> m <= v) && (m == base || m in vals)
  }

  /** The widened bound is determined by the old bound and the new values. */
  lemma IsMaxWithUnique(m1: int, m2: int, base: int, vals: set<int>)
    requires IsMaxWith(m1, base, vals) && IsMaxWith(m2, base, vals)
    ensures m1 == m2
  {
  }

  lemma IsMinWithUnique(m1: int, m2: int, base: int, vals: set<int>)
    requires IsMinWith(m1, base, vals) && IsMinWith(m2, base, vals)
    ensures m1 == m2
  {
  }

  // Shapes

  /** The cells of the five shapes, bottom-left corner at (0,0), chosen by
      `idx % 5`: a horizontal bar, a plus, a reversed L, a vertical bar and
      a square. */
  function ShapeCells(idx: nat): seq<Pos> {
    var i := idx % 5;
    if i == 0 then [Pos(0, 0), Pos(1, 0), Pos(2, 0), Pos(3, 0)]
    else if i == 1 then [Pos(1, 0), Pos(0, 1), Pos(1, 1), Pos(2, 1), Pos(1, 2)]
    else if i == 2 then [Pos(0, 0), Pos(1, 0), Pos(2, 0), Pos(2, 1), Pos(2, 2)]
    else if i == 3 then [Pos(0, 0), Pos(0, 1), Pos(0, 2), Pos(0, 3)]
    else [Pos(0, 0), Pos(1, 0), Pos(0, 1), Pos(1, 1)]
  }

  /** How many cells the shape of rock `idx` has. */
  function ShapeSize(idx: nat): nat {
    if idx % 5 == 1 || idx % 5 == 2 then 5 else 4
  }

  /** The cells of the first `n` rocks, counted. */
  function SizeSum(n: nat): nat {
    if n == 0 then 0 else SizeSum(n - 1) + ShapeSize(n - 1)
  }

  /** A list of distinct cells collects into as many cells. */
  lemma {:induction false} CellsCard(ps: seq<Pos>)
    requires forall i, j :: 0 <= i < j < |ps| ==> ps[i] != ps[j]
    ensures |Cells(ps)| == |ps|
  {
    if ps != [] {
      var last := ps[|ps| - 1];
      var init := ps[..|ps| - 1];
      CellsCard(init);
      assert Cells(ps) == Cells(init) + {last} by {
        assert ps == init + [last];
      }
      assert last !in Cells(init) by {
        forall k | 0 <= k < |init|
          ensures init[k] != last
        {
          assert init[k] == ps[k];
        }
      }
    }
  }

  /** A shape whose cells fit the 4x4 box and touch both axes has its
      minimum bounds at 0 and its maximum bounds in 0..3. */
  lemma BoxBounds(ps: seq<Pos>)
    requires forall k :: 0 <= k < |ps| ==> 0 <= ps[k].x <= 3 && 0 <= ps[k].y <= 3
    requires (exists k :: 0 <= k < |ps| && ps[k].x == 0) && (exists k :: 0 <= k < |ps| && ps[k].y == 0)
    ensures MinOf(Xs(ps)) == 0 && MinOf(Ys(ps)) == 0
    ensures 0 <= MaxOf(Xs(ps)) <= 3 && 0 <= MaxOf(Ys(ps)) <= 3
  {
    var kx :| 0 <= kx < |ps| && ps[kx].x == 0;
    var ky :| 0 <= ky < |ps| && ps[ky].y == 0;
    assert Xs(ps)[kx] == 0 && Ys(ps)[ky] == 0;
  }

  /** A shape as the program expects one: it touches x = 0 and y = 0, fits
      in a 4x4 box, and has `size` distinct cells. */
  predicate Fits(ps: seq<Pos>, size: nat) {
    && MinOf(Xs(ps)) == 0 && MinOf(Ys(ps)) == 0
    && 0 <= MaxOf(Xs(ps)) <= 3 && 0 <= MaxOf(Ys(ps)) <= 3
    && |Cells(ps)| == size
  }

  /** A list of distinct cells in the 4x4 box that touches both axes fits. */
  lemma FitsWhen(ps: seq<Pos>, kx: nat, ky: nat)
    requires forall i, j :: 0 <= i < j < |ps| ==> ps[i] != ps[j]
    requires forall k :: 0 <= k < |ps| ==> 0 <= ps[k].x <= 3 && 0 <= ps[k].y <= 3
    requires kx < |ps| && ky < |ps| && ps[kx].x == 0 && ps[ky].y == 0
    ensures Fits(ps, |ps|)
  {
    BoxBounds(ps);
    CellsCard(ps);
  }

  lemma BarFits()
    ensures Fits([Pos(0, 0), Pos(1, 0), Pos(2, 0), Pos(3, 0)], 4)
  {
    FitsWhen([Pos(0, 0), Pos(1, 0), Pos(2, 0), Pos(3, 0)], 0, 0);
  }

  lemma PlusFits()
    ensures Fits([Pos(1, 0), Pos(0, 1), Pos(1, 1), Pos(2, 1), Pos(1, 2)], 5)
  {
    var ps := [Pos(1, 0), Pos(0, 1), Pos(1, 1), Pos(2, 1), Pos(1, 2)];
    FitsWhen(ps, 1, 0);
  }

  lemma CornerFits()
    ensures Fits([Pos(0, 0), Pos(1, 0), Pos(2, 0), Pos(2, 1), Pos(2, 2)], 5)
  {
    FitsWhen([Pos(0, 0), Pos(1, 0), Pos(2, 0), Pos(2, 1), Pos(2, 2)], 0, 0);
  }

  lemma PoleFits()
    ensures Fits([Pos(0, 0), Pos(0, 1), Pos(0, 2), Pos(0, 3)], 4)
  {
    FitsWhen([Pos(0, 0), Pos(0, 1), Pos(0, 2), Pos(0, 3)], 0, 0);
  }

  lemma SquareFits()
    ensures Fits([Pos(0, 0), Pos(1, 0), Pos(0, 1), Pos(1, 1)], 4)
  {
    FitsWhen([Pos(0, 0), Pos(1, 0), Pos(0, 1), Pos(1, 1)], 0, 0);
  }

  /** Every one of the five shapes fits, with `ShapeSize` cells. */
  lemma ShapeFacts(idx: nat)
    ensures Fits(ShapeCells(idx), ShapeSize(idx))
  {
    var i := idx % 5;
    if i == 0 {
      BarFits();
    } else if i == 1 {
      PlusFits();
    } else if i == 2 {
      CornerFits();
    } else if i == 3 {
      PoleFits();
    } else {
      SquareFits();
    }
  }

  // Collision

  /** Whether a cell of `a` placed at `apos` is a cell of `b` placed at
      `bpos`. */
  ghost predicate Overlap(a: set<Pos>, apos: Pos, b: set<Pos>, bpos: Pos) {
    exists p, q :: p in a && q in b && Add(p, apos) == Add(q, bpos)
  }

  /** `Rock::collides_with` on the cell sets: the smaller set is walked, each
      of its cells looked up in the other. */
  function Hits(a: set<Pos>, apos: Pos, b: set<Pos>, bpos: Pos): (r: bool)
    decreases if |a| > |b| then 1 else 0
  {
    if |a| > |b| then Hits(b, bpos, a, apos)
    else exists p :: p in a && Sub(Add(p, apos), bpos) in b
  }

  /** Two placed rocks collide exactly when they share a cell. */
  lemma HitsIff(a: set<Pos>, apos: Pos, b: set<Pos>, bpos: Pos)
    ensures Hits(a, apos, b, bpos) <==> Overlap(a, apos, b, bpos)
  {
    if |a| > |b| {
      assert Hits(a, apos, b, bpos) == exists q :: q in b && Sub(Add(q, bpos), apos) in a;
      if Hits(a, apos, b, bpos) {
        var q :| q in b && Sub(Add(q, bpos), apos) in a;
        assert Add(Sub(Add(q, bpos), apos), apos) == Add(q, bpos);
      }
      if Overlap(a, apos, b, bpos) {
        var p, q :| p in a && q in b && Add(p, apos) == Add(q, bpos);
        assert Sub(Add(q, bpos), apos) == p;
      }
    } else {
      if Hits(a, apos, b, bpos) {
        var p :| p in a && Sub(Add(p, apos), bpos) in b;
        assert Add(Sub(Add(p, apos), bpos), bpos) == Add(p, apos);
      }
      if Overlap(a, apos, b, bpos) {
        var p, q :| p in a && q in b && Add(p, apos) == Add(q, bpos);
        assert Sub(Add(p, apos), bpos) == q;
      }
    }
  }

  /** Collision does not depend on which rock asks. */
  lemma HitsSymmetric(a: set<Pos>, apos: Pos, b: set<Pos>, bpos: Pos)
    ensures Hits(a, apos, b, bpos) == Hits(b, bpos, a, apos)
  {
    HitsIff(a, apos, b, bpos);
    HitsIff(b, bpos, a, apos);
  }

  /** A rock with a cell collides with itself at the same place. */
  lemma HitsSelf(a: set<Pos>, pos: Pos)
    requires a != {}
    ensures Hits(a, pos, a, pos)
  {
    var p :| p in a;
    HitsIff(a, pos, a, pos);
  }

  /** The square's cells lie in 0..1 on both axes; (0,0) and (1,1) are
      among them. */
  lemma SquareCells()
    ensures forall p :: p in Cells(ShapeCells(4)) ==> 0 <= p.x <= 1 && 0 <= p.y <= 1
    ensures Pos(0, 0) in Cells(ShapeCells(4)) && Pos(1, 1) in Cells(ShapeCells(4))
  {
    var ps := ShapeCells(4);
    assert ps[0] == Pos(0, 0) && ps[3] == Pos(1, 1);
  }

  /** Two squares placed two cells apart diagonally do not collide. */
  lemma SquaresApart()
    ensures !Hits(Cells(ShapeCells(4)), Pos(1, 1), Cells(ShapeCells(4)), Pos(3, 3))
  {
    var sq := Cells(ShapeCells(4));
    SquareCells();
    HitsIff(sq, Pos(1, 1), sq, Pos(3, 3));
  }

  /** Two squares placed one cell apart diagonally collide. */
  lemma SquaresOverlap()
    ensures Hits(Cells(ShapeCells(4)), Pos(1, 1), Cells(ShapeCells(4)), Pos(2, 2))
  {
    var sq := Cells(ShapeCells(4));
    SquareCells();
    HitsIff(sq, Pos(1, 1), sq, Pos(2, 2));
    assert Add(Pos(1, 1), Pos(1, 1)) == Add(Pos(0, 0), Pos(2, 2));
  }

  // Merging

  /** The cells of `s` placed at `pos`, seen from a rock placed at `origin`:
      each `p` becomes `p + pos - origin`. */
  function Place(s: set<Pos>, pos: Pos, origin: Pos): set<Pos> {
    set p | p in s :: Sub(Add(p, pos), origin)
  }

  lemma PlaceAdd(s: set<Pos>, p: Pos, pos: Pos, origin: Pos)
    ensures Place(s + {p}, pos, origin) == Place(s, pos, origin) + {Sub(Add(p, pos), origin)}
  {
  }

  /** Placing moves every cell by the same amount, so no two cells meet. */
  lemma {:induction false} PlaceCard(s: set<Pos>, pos: Pos, origin: Pos)
    ensures |Place(s, pos, origin)| == |s|
    decreases |s|
  {
    if s != {} {
      var p :| p in s;
      var rest := s - {p};
      PlaceCard(rest, pos, origin);
      PlaceAdd(rest, p, pos, origin);
      assert s == rest + {p};
      assert Sub(Add(p, pos), origin) !in Place(rest, pos, origin);
    }
  }

  /** The square as a set of cells. */
  lemma SquareSet()
    ensures Cells(ShapeCells(4)) == {Pos(0, 0), Pos(1, 0), Pos(0, 1), Pos(1, 1)}
  {
    var ps := ShapeCells(4);
    assert ps == [Pos(0, 0), Pos(1, 0), Pos(0, 1), Pos(1, 1)];
  }

  /** A cell is placed exactly when moving it back lands on a cell. */
  lemma PlaceMember(s: set<Pos>, pos: Pos, origin: Pos, q: Pos)
    ensures q in Place(s, pos, origin) <==> Sub(Add(q, origin), pos) in s
  {
    if Sub(Add(q, origin), pos) in s {
      assert Sub(Add(Sub(Add(q, origin), pos), pos), origin) == q;
    }
  }

  /** A square at (3,1) seen from a rock at (1,1) covers (2,0), (3,0),
      (2,1) and (3,1). */
  lemma MergeExample()
    ensures Place(Cells(ShapeCells(4)), Pos(3, 1), Pos(1, 1)) == {Pos(2, 0), Pos(3, 0), Pos(2, 1), Pos(3, 1)}
  {
    SquareSet();
    SquarePlaced();
  }

  lemma SquarePlaced()
    ensures Place({Pos(0, 0), Pos(1, 0), Pos(0, 1), Pos(1, 1)}, Pos(3, 1), Pos(1, 1))
      == {Pos(2, 0), Pos(3, 0), Pos(2, 1), Pos(3, 1)}
  {
    var sq := {Pos(0, 0), Pos(1, 0), Pos(0, 1), Pos(1, 1)};
    forall q
      ensures q in Place(sq, Pos(3, 1), Pos(1, 1)) <==> q in {Pos(2, 0), Pos(3, 0), Pos(2, 1), Pos(3, 1)}
    {
      PlaceMember(sq, Pos(3, 1), Pos(1, 1), q);
    }
  }

  /** Merging those cells into a square whose bounds are 0..1 gives the
      bounds x in 0..3, y in 0..1. */
  lemma MergeExampleBounds()
    ensures var placed := {Pos(2, 0), Pos(3, 0), Pos(2, 1), Pos(3, 1)};
      && IsMinWith(0, 0, XsOf(placed)) && IsMaxWith(3, 1, XsOf(placed))
      && IsMinWith(0, 0, YsOf(placed)) && IsMaxWith(1, 1, YsOf(placed))
  {
    var placed := {Pos(2, 0), Pos(3, 0), Pos(2, 1), Pos(3, 1)};
    assert XsOf(placed) == {2, 3} by {
      assert Pos(2, 0) in placed && Pos(3, 0) in placed;
    }
    assert YsOf(placed) == {0, 1} by {
      assert Pos(2, 0) in placed && Pos(2, 1) in placed;
    }
  }

  /** Bounds `(minx, maxx, miny, maxy)` widened from `old` to cover `cells`. */
  predicate WidenedTo(b: (int, int, int, int), prev: (int, int, int, int), cells: set<Pos>) {
    && IsMinWith(b.0, prev.0, XsOf(cells)) && IsMaxWith(b.1, prev.1, XsOf(cells))
    && IsMinWith(b.2, prev.2, YsOf(cells)) && IsMaxWith(b.3, prev.3, YsOf(cells))
  }

  /** Widening by one more cell: `std::cmp::min`/`max` with its
      coordinates. */
  lemma WidenStep(b: (int, int, int, int), prev: (int, int, int, int), cells: set<Pos>, q: Pos)
    requires WidenedTo(b, prev, cells)
    ensures WidenedTo((Min(b.0, q.x), Max(b.1, q.x), Min(b.2, q.y), Max(b.3, q.y)), prev, cells + {q})
  {
    assert XsOf(cells + {q}) == XsOf(cells) + {q.x};
    assert YsOf(cells + {q}) == YsOf(cells) + {q.y};
  }

  /** Bounds `(minx, maxx, miny, maxy)` cover every cell. */
  ghost predicate Covers(b: (int, int, int, int), cells: set<Pos>) {
    forall p :: p in cells ==> b.0 <= p.x <= b.1 && b.2 <= p.y <= b.3
  }

  /** Bounds covering the old cells, widened to new cells, cover both. */
  lemma WidenedCovers(b: (int, int, int, int), prev: (int, int, int, int), olds: set<Pos>, cells: set<Pos>)
    requires WidenedTo(b, prev, cells) && Covers(prev, olds)
    ensures Covers(b, olds + cells)
  {
    forall p | p in olds + cells
      ensures b.0 <= p.x <= b.1 && b.2 <= p.y <= b.3
    {
      if p in cells {
        assert p.x in XsOf(cells) && p.y in YsOf(cells);
      }
    }
  }

  /** What the loop of `Rock::merge` keeps: the cells of `other` handled so
      far (`done`) are placed into `cells'`, and `b'` widened to them. */
  ghost predicate MergeInv(cells: set<Pos>, b: (int, int, int, int), other: set<Pos>, otherPos: Pos, selfPos: Pos,
                           todo: set<Pos>, done: set<Pos>, cells': set<Pos>, b': (int, int, int, int))
  {
    && todo + done == other && todo !! done
    && cells' == cells + Place(done, otherPos, selfPos)
    && WidenedTo(b', b, Place(done, otherPos, selfPos))
  }

  /** One more cell keeps `MergeInv`. */
  lemma MergeStep(cells: set<Pos>, b: (int, int, int, int), other: set<Pos>, otherPos: Pos, selfPos: Pos,
                  todo: set<Pos>, done: set<Pos>, cells': set<Pos>, b': (int, int, int, int), p: Pos)
    requires MergeInv(cells, b, other, otherPos, selfPos, todo, done, cells', b') && p in todo
    ensures var q := Sub(Add(p, otherPos), selfPos);
      MergeInv(cells, b, other, otherPos, selfPos, todo - {p}, done + {p}, cells' + {q},
               (Min(b'.0, q.x), Max(b'.1, q.x), Min(b'.2, q.y), Max(b'.3, q.y)))
  {
    var q := Sub(Add(p, otherPos), selfPos);
    PlaceAdd(done, p, otherPos, selfPos);
    WidenStep(b', b, Place(done, otherPos, selfPos), q);
  }

  /** The loop of `Rock::merge`: each cell of `other`, placed at `otherPos`
      and seen from `selfPos`, is inserted into `cells`, and the bounds `b`
      widen to it. */
  method MergeCells(cells: set<Pos>, b: (int, int, int, int), other: set<Pos>, otherPos: Pos, selfPos: Pos)
    returns (cells': set<Pos>, b': (int, int, int, int))
    ensures cells' == cells + Place(other, otherPos, selfPos)
    ensures WidenedTo(b', b, Place(other, otherPos, selfPos))
  {
    var todo := other;
    cells', b' := cells, b;
    ghost var done: set<Pos> := {};
    while todo != {}
      invariant MergeInv(cells, b, other, otherPos, selfPos, todo, done, cells', b')
      decreases |todo|
    {
      var p :| p in todo;
      var q := Sub(Add(p, otherPos), selfPos);
      MergeStep(cells, b, other, otherPos, selfPos, todo, done, cells', b', p);
      cells' := cells' + {q};
      b' := (Min(b'.0, q.x), Max(b'.1, q.x), Min(b'.2, q.y), Max(b'.3, q.y));
      todo := todo - {p};
      done := done + {p};
    }
    assert done == other;
  }

  /** A rock: its cells relative to its bottom-left corner, and bounds
      covering them. */
  class Rock {
    var positions: set<Pos>
    var minx: int
    var maxx: int
    var miny: int
    var maxy: int

    /** The bounds cover every cell. */
    ghost predicate Bounded()
      reads this
    {
      Covers((minx, maxx, miny, maxy), positions)
    }

    /** `Rock::new`: the cells of the list, with bounds the least and
        greatest coordinates, or 0 for a rock without cells. */
    constructor (ps: seq<Pos>)
      ensures positions == Cells(ps)
      ensures minx == MinOf(Xs(ps)) && maxx == MaxOf(Xs(ps))
      ensures miny == MinOf(Ys(ps)) && maxy == MaxOf(Ys(ps))
      ensures Bounded()
    {
      positions := Cells(ps);
      minx := MinOf(Xs(ps));
      maxx := MaxOf(Xs(ps));
      miny := MinOf(Ys(ps));
      maxy := MaxOf(Ys(ps));
      new;
      forall p | p in positions
        ensures minx <= p.x <= maxx && miny <= p.y <= maxy
      {
        var k :| 0 <= k < |ps| && ps[k] == p;
        assert Xs(ps)[k] == p.x && Ys(ps)[k] == p.y;
      }
    }

    /** `Rock::newi`: a rock of shape `idx % 5`. */
    static method NewI(idx: nat) returns (r: Rock)
      ensures fresh(r) && r.positions == Cells(ShapeCells(idx)) && Falling(r, idx)
    {
      r := new Rock(ShapeCells(idx));
      ShapeFacts(idx);
    }

    /** `Rock::collides_with`: this rock placed at `selfPos` and `other`
        placed at `otherPos` share a cell. */
    function CollidesWith(selfPos: Pos, other: Rock, otherPos: Pos): (r: bool)
      reads this, other
      ensures r <==> Overlap(positions, selfPos, other.positions, otherPos)
    {
      HitsIff(positions, selfPos, other.positions, otherPos);
      Hits(positions, selfPos, other.positions, otherPos)
    }

    /** The bounds as a tuple. */
    function Bounds(): (int, int, int, int)
      reads this
    {
      (minx, maxx, miny, maxy)
    }

    /** `Rock::merge`: every cell of `other` placed at `otherPos` is added,
        seen from this rock placed at `selfPos`; each bound widens to the
        new cells, and the cells already here stay. */
    method Merge(selfPos: Pos, other: Rock, otherPos: Pos)
      requires other != this
      modifies this
      ensures positions == old(positions) + Place(other.positions, otherPos, selfPos)
      ensures WidenedTo(Bounds(), old(Bounds()), Place(other.positions, otherPos, selfPos))
      ensures old(Bounded()) ==> Bounded()
    {
      var b;
      ghost var wasBounded := Bounded();
      positions, b := MergeCells(positions, Bounds(), other.positions, otherPos, selfPos);
      if wasBounded {
        WidenedCovers(b, old(Bounds()), old(positions), Place(other.positions, otherPos, selfPos));
      }
      minx, maxx, miny, maxy := b.0, b.1, b.2, b.3;
    }
  }

  // The chamber

  /** Every cell strictly between the walls and above the floor. */
  ghost predicate InChamber(cells: set<Pos>) {
    forall p :: p in cells ==> 1 <= p.x <= Width && 1 <= p.y
  }

  /** `collides_with_tower_or_wall`: the shape's left edge is at or left of
      the left wall, its right edge right of the right wall, its bottom edge
      on the floor, or it shares a cell with the tower. */
  function CollidesWithTowerOrWall(shape: Rock, shapePos: Pos, tower: Rock, towerPos: Pos): bool
    reads shape, tower
  {
    if shape.minx + shapePos.x <= 0 then true
    else if shape.maxx + shapePos.x > Width then true
    else if shape.miny + shapePos.y == 0 then true
    else shape.CollidesWith(shapePos, tower, towerPos)
  }

  /** A shape that does not collide, and whose bottom is not below the
      floor, lies inside the chamber and shares no cell with the tower. */
  lemma ClearPlacement(shape: Rock, pos: Pos, tower: Rock)
    requires shape.Bounded() && shape.miny + pos.y >= 1
    requires !CollidesWithTowerOrWall(shape, pos, tower, Origin)
    ensures InChamber(Place(shape.positions, pos, Origin))
    ensures Place(shape.positions, pos, Origin) !! tower.positions
  {
    var P := Place(shape.positions, pos, Origin);
    forall c | c in P
      ensures 1 <= c.x <= Width && 1 <= c.y && c !in tower.positions
    {
      var p :| p in shape.positions && c == Sub(Add(p, pos), Origin);
      assert Add(p, pos) == c == Add(c, Origin);
    }
  }

  /** A new shape, placed two units from the left wall and three above the
      tower, collides with nothing. */
  lemma SpawnClear(shape: Rock, tower: Rock)
    requires shape.minx == 0 && shape.miny == 0 && shape.maxx <= 3 && shape.Bounded()
    requires tower.maxy >= 0 && forall p :: p in tower.positions ==> p.y <= tower.maxy
    ensures !CollidesWithTowerOrWall(shape, Pos(LeftSpace + 1, tower.maxy + BottomSpace + 1), tower, Origin)
  {
    var pos := Pos(LeftSpace + 1, tower.maxy + BottomSpace + 1);
    forall p, q | p in shape.positions && q in tower.positions
      ensures Add(p, pos) != Add(q, Origin)
    {
      assert p.y >= 0;
    }
  }

  /** A shape stops falling only where the floor or the tower is right
      below it, so its bottom edge is at most one above the tower. */
  lemma Landing(shape: Rock, pos: Pos, tower: Rock)
    requires shape.Bounded() && shape.miny == 0 && pos.y >= 1
    requires !CollidesWithTowerOrWall(shape, pos, tower, Origin)
    requires CollidesWithTowerOrWall(shape, Add(pos, Pos(0, -1)), tower, Origin)
    requires tower.maxy >= 0 && forall p :: p in tower.positions ==> p.y <= tower.maxy
    ensures pos.y <= tower.maxy + 1
  {
    var dropped := Add(pos, Pos(0, -1));
    if pos.y != 1 {
      assert Overlap(shape.positions, dropped, tower.positions, Origin);
      var p, q :| p in shape.positions && q in tower.positions && Add(p, dropped) == Add(q, Origin);
      assert p.y >= 0;
    }
  }

  /** The settled tower: its cells in the chamber, `top` its highest row (0
      with no cells, at most 4 per rock), and as many cells as the first
      `rocks` shapes have, so that no two rocks overlap. */
  ghost predicate TowerInv(cells: set<Pos>, top: int, rocks: nat) {
    && InChamber(cells)
    && (forall p :: p in cells ==> p.y <= top)
    && 0 <= top <= 4 * rocks
    && (cells == {} ==> top == 0)
    && (cells != {} ==> top in YsOf(cells))
    && |cells| == SizeSum(rocks)
  }

  /** Where a falling shape settles: inside the chamber, clear of the tower,
      with all its cells, at most four rows above the tower. */
  lemma Settles(shape: Rock, pos: Pos, tower: Rock, rocks: nat)
    requires |shape.positions| == ShapeSize(rocks)
    requires shape.minx == 0 && shape.miny == 0 && shape.maxy <= 3 && shape.Bounded()
    requires pos.y >= 1 && !CollidesWithTowerOrWall(shape, pos, tower, Origin)
    requires CollidesWithTowerOrWall(shape, Add(pos, Pos(0, -1)), tower, Origin)
    requires TowerInv(tower.positions, tower.maxy, rocks)
    ensures var placed := Place(shape.positions, pos, Origin);
      && InChamber(placed) && placed !! tower.positions && |placed| == ShapeSize(rocks)
      && forall p :: p in placed ==> p.y <= tower.maxy + 4
  {
    ClearPlacement(shape, pos, tower);
    Landing(shape, pos, tower);
    PlaceCard(shape.positions, pos, Origin);
    forall c | c in Place(shape.positions, pos, Origin)
      ensures c.y <= tower.maxy + 4
    {
      var p :| p in shape.positions && c == Sub(Add(p, pos), Origin);
    }
  }

  /** Merging a settled shape keeps the tower's invariant for one more
      rock. */
  lemma SettleKeeps(cells: set<Pos>, top: int, placed: set<Pos>, top': int, rocks: nat)
    requires TowerInv(cells, top, rocks)
    requires InChamber(placed) && placed !! cells && |placed| == ShapeSize(rocks)
    requires forall p :: p in placed ==> p.y <= top + 4
    requires IsMaxWith(top', top, YsOf(placed))
    ensures TowerInv(cells + placed, top', rocks + 1)
  {
    var p :| p in placed;
    assert p.y in YsOf(placed);
    if top' != top {
      var q :| q in placed && q.y == top';
    }
    var all := cells + placed;
    if top' == top {
      assert top' in YsOf(all) by {
        if cells == {} {
          assert false;
        } else {
          var q :| q in cells && q.y == top;
          assert q in all;
        }
      }
    } else {
      var q :| q in placed && q.y == top';
      assert q in all;
    }
    forall c | c in all
      ensures c.y <= top'
    {
      if c in placed {
        assert c.y in YsOf(placed);
      }
    }
  }

  // Simulation

  /** The jets the program understands: `<` pushes left, `>` right. */
  predicate IsJet(c: char) {
    c == '<' || c == '>'
  }

  /** `simulate`: rocks fall in turn, the jets of the trimmed input pushing
      them sideways in a cycle, until `rockLimit` rocks have settled; the
      answer is the tower's top row. An empty jet list, or reaching a jet
      other than `<` and `>`, is a panic, `None` (a bad jet never reached
      does not matter). The settled cells are returned as a ghost result:
      they stay inside the chamber, no two rocks overlap, and the tower
      grows at most four rows per rock. */
  method Simulate(input: string, rockLimit: nat) returns (r: Option<int>, ghost settled: set<Pos>)
    requires rockLimit >= 1
    ensures r.None? ==> Trim(input) == [] || exists k :: 0 <= k < |Trim(input)| && !IsJet(Trim(input)[k])
    ensures r.Some? ==> 1 <= r.value <= 4 * rockLimit
    ensures r.Some? ==> TowerInv(settled, r.value, rockLimit)
  {
    var jets := Trim(input);
    var tower := new Rock([]);
    assert Cells([]) == {};
    var shape, shapePos := Spawn(tower, 0);
    if |jets| == 0 {
      return None, {};
    }
    var j := 0;
    var rocks := 0;
    while true
      invariant 0 <= j < |jets| && 0 <= rocks < rockLimit
      invariant fresh(tower) && shape != tower
      invariant TowerInv(tower.positions, tower.maxy, rocks)
      invariant Falling(shape, rocks)
      invariant 1 <= shapePos.y && !CollidesWithTowerOrWall(shape, shapePos, tower, Origin)
      decreases rockLimit - rocks, shapePos.y
    {
      var jet := jets[j];
      j := (j + 1) % |jets|;
      var jetted;
      if jet == '>' {
        jetted := Add(shapePos, Pos(1, 0));
      } else if jet == '<' {
        jetted := Add(shapePos, Pos(-1, 0));
      } else {
        return None, {};
      }
      if !CollidesWithTowerOrWall(shape, jetted, tower, Origin) {
        shapePos := jetted;
      }
      var dropped := Add(shapePos, Pos(0, -1));
      if !CollidesWithTowerOrWall(shape, dropped, tower, Origin) {
        shapePos := dropped;
      } else {
        Settle(tower, shape, shapePos, rocks);
        rocks := rocks + 1;
        shape, shapePos := Spawn(tower, rocks);
        if rocks == rockLimit {
          break;
        }
      }
    }
    TowerTop(tower.positions, tower.maxy, rocks);
    return Some(tower.maxy), tower.positions;
  }

  /** The shape of rock number `rocks`, as `Rock::new` builds it. */
  ghost predicate Falling(shape: Rock, rocks: nat)
    reads shape
  {
    && |shape.positions| == ShapeSize(rocks)
    && shape.minx == 0 && shape.miny == 0 && 0 <= shape.maxx <= 3 && 0 <= shape.maxy <= 3
    && shape.Bounded()
  }

  /** The next shape is shape number `rocks` (`Rock::new_i(rocks)`); it
      appears three rows above the tower's top, two columns from the left
      wall, clear of everything. */
  method Spawn(tower: Rock, rocks: nat) returns (next: Rock, nextPos: Pos)
    requires tower.maxy >= 0 && forall p :: p in tower.positions ==> p.y <= tower.maxy
    ensures fresh(next) && next.positions == Cells(ShapeCells(rocks)) && Falling(next, rocks)
    ensures nextPos == Pos(LeftSpace + 1, tower.maxy + BottomSpace + 1)
    ensures !CollidesWithTowerOrWall(next, nextPos, tower, Origin)
  {
    next := Rock.NewI(rocks);
    nextPos := Pos(LeftSpace + 1, tower.maxy + BottomSpace + 1);
    SpawnClear(next, tower);
  }

  /** Combining a shape that cannot fall further with the tower keeps the
      tower's invariant, now for one more rock. */
  method Settle(tower: Rock, shape: Rock, shapePos: Pos, rocks: nat)
    requires tower != shape
    requires |shape.positions| == ShapeSize(rocks)
    requires shape.minx == 0 && shape.miny == 0 && shape.maxy <= 3 && shape.Bounded()
    requires shapePos.y >= 1 && !CollidesWithTowerOrWall(shape, shapePos, tower, Origin)
    requires CollidesWithTowerOrWall(shape, Add(shapePos, Pos(0, -1)), tower, Origin)
    requires TowerInv(tower.positions, tower.maxy, rocks)
    modifies tower
    ensures TowerInv(tower.positions, tower.maxy, rocks + 1)
  {
    Settles(shape, shapePos, tower, rocks);
    ghost var cells := tower.positions;
    ghost var top := tower.maxy;
    ghost var placed := Place(shape.positions, shapePos, Origin);
    tower.Merge(Origin, shape, shapePos);
    assert IsMaxWith(tower.maxy, top, YsOf(placed));
    SettleKeeps(cells, top, placed, tower.maxy, rocks);
  }

  /** A tower of at least one rock has its top row at 1 or above. */
  lemma TowerTop(cells: set<Pos>, top: int, rocks: nat)
    requires TowerInv(cells, top, rocks) && rocks >= 1
    ensures 1 <= top
  {
    assert SizeSum(rocks) >= ShapeSize(rocks - 1) > 0;
    var q :| q in cells && q.y == top;
  }

  /** `p1::solve`: the tower's height after 2022 rocks. */
  method SolveP1(input: string) returns (r: Option<int>)
    ensures r.None? ==> Trim(input) == [] || exists k :: 0 <= k < |Trim(input)| && !IsJet(Trim(input)[k])
    ensures r.Some? ==> 1 <= r.value <= 4 * 2022
  {
    ghost var settled;
    r, settled := Simulate(input, 2022);
  }
}
