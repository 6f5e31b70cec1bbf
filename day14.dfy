/** Day 14: sand poured into a cave of rock walls, grain by grain, until it
    falls out of the bottom. */
module Day14 {
  import opened Wrappers
  import opened Text
  import opened Arith

  /** A position in the cave; x grows to the right and y grows downwards. */
  type Point = (int, int)

  /** `GENERATOR`: where every grain of sand enters. */
  const Generator: Point := (500, 0)

  datatype Cell = Empty | Rock | SandSource | DeadSand

  /** The three places a grain at `pos` tries, in the order it tries them:
      straight down, down-left, down-right. */
  function Below(pos: Point): seq<Point> {
    [(pos.0, pos.1 + 1), (pos.0 - 1, pos.1 + 1), (pos.0 + 1, pos.1 + 1)]
  }

  /** The resting grains of a cell map. */
  function Dead(stored: map<Point, Cell>): set<Point> {
    set p | p in stored && stored[p] == DeadSand
  }

  /** Every point of `s` marked as rock. */
  function Rocks(s: set<Point>): map<Point, Cell> {
    map p | p in s :: Rock
  }

  /** `Cave<FLOORED>`: the floor flag and the lowest wall row are fixed when
      the cave is built; the sparse cell map is updated in place. */
  class Cave {
    const floored: bool
    const maxWallY: int
    var cells: map<Point, Cell>

    constructor(floored: bool, maxWallY: int)
      ensures this.floored == floored && this.maxWallY == maxWallY
      ensures cells == map[]
    {
      this.floored := floored;
      this.maxWallY := maxWallY;
      cells := map[];
    }

    /** `Cave::get` in a cave whose stored cells are `stored`: the floor two
        rows below the lowest wall is rock in a floored cave; elsewhere a
        stored cell, and empty where nothing is stored. */
    function Get(stored: map<Point, Cell>, p: Point): Cell {
      if floored && p.1 == maxWallY + 2 then Rock
      else if p in stored then stored[p]
      else Empty
    }

    /** `Cave::in_abyss`: below every wall of a cave without a floor. */
    predicate InAbyss(p: Point) {
      !floored && p.1 > maxWallY
    }

    /** `Iterator::find` over candidate places: the index of the first
        empty one. */
    function FirstEmpty(stored: map<Point, Cell>, ps: seq<Point>): (r: Option<nat>)
      ensures r.Some? ==> r.value < |ps| && Get(stored, ps[r.value]) == Empty
      ensures r.Some? ==> forall j :: 0 <= j < r.value ==> Get(stored, ps[j]) != Empty
      ensures r.None? ==> forall j :: 0 <= j < |ps| ==> Get(stored, ps[j]) != Empty
    {
      if ps == [] then None
      else if Get(stored, ps[0]) == Empty then Some(0)
      else
        match FirstEmpty(stored, ps[1..])
        case None => None
        case Some(k) => Some(k + 1)
    }

    /** Where a grain at `pos` moves next, if anywhere. */
    function NextPos(stored: map<Point, Cell>, pos: Point): (r: Option<Point>)
      ensures r.Some? ==> r.value.1 == pos.1 + 1 && Get(stored, r.value) == Empty
    {
      match FirstEmpty(stored, Below(pos))
      case None => None
      case Some(k) => Some(Below(pos)[k])
    }

    /** The rest of a grain's fall from `pos` with the cells `stored`: where it
        comes to rest, or `None` when it falls into the abyss. */
    function Fall(stored: map<Point, Cell>, pos: Point): (r: Option<Point>)
      requires !floored || pos.1 <= maxWallY + 1
      ensures r.Some? ==> !InAbyss(r.value) && NextPos(stored, r.value).None? && pos.1 <= r.value.1
      decreases if pos.1 <= maxWallY + 1 then maxWallY + 1 - pos.1 else 0
    {
      if InAbyss(pos) then None
      else
        match NextPos(stored, pos)
        case None => Some(pos)
        case Some(p) => Fall(stored, p)
    }

    /** `Cave::set`. */
    method Set(p: Point, c: Cell)
      modifies this
      ensures cells == old(cells)[p := c]
    {
      cells := cells[p := c];
    }

    /** The inner loop of `Cave::from_str`: signum steps from `from` until
        `dst` is reached, every point visited set to rock. */
    method DrawLine(from: Point, dst: Point)
      modifies this
      ensures cells == old(cells) + Rocks(Elems(Line(from, dst)))
    {
      var current := from;
      ghost var drawn: seq<Point> := [];
      while dst != current
        invariant drawn + Line(current, dst) == Line(from, dst)
        invariant cells == old(cells) + Rocks(Elems(drawn))
        decreases Dist(current, dst)
      {
        var dx := Signum(dst.0 - current.0);
        var dy := Signum(dst.1 - current.1);
        ghost var prev := current;
        current := (current.0 + dx, current.1 + dy);
        StepIs(prev, dst, dx, dy);
        StepCloser(prev, dst);
        LineStep(prev, dst);
        Set(current, Rock);
        RocksAdd(old(cells), Elems(drawn), current);
        ConcatAssoc(drawn, [current], Line(current, dst));
        ElemsSnoc(drawn, current);
        drawn := drawn + [current];
      }
    }

    /** The drawing of one path in `Cave::from_str`: its first vertex, then
        a line to each following vertex. */
    method DrawPath(path: seq<Point>)
      requires |path| >= 1
      modifies this
      ensures cells == old(cells) + Rocks(PathRock(path))
    {
      var current := path[0];
      Set(current, Rock);
      RocksAdd(old(cells), {}, current);
      assert PathRock(path[..1]) == {} + {current};
      for k := 1 to |path|
        invariant current == path[k - 1]
        invariant cells == old(cells) + Rocks(PathRock(path[..k]))
      {
        var dst := path[k];
        DrawLine(current, dst);
        current := dst;
        PathRockSnoc(path, k);
        RocksUnion(old(cells), PathRock(path[..k]), Elems(Line(path[k - 1], dst)));
      }
      assert path[..|path|] == path;
    }

    /** The loop over all paths in `Cave::from_str`. */
    method DrawWalls(paths: seq<seq<Point>>)
      requires forall k :: 0 <= k < |paths| ==> |paths[k]| >= 1
      modifies this
      ensures cells == old(cells) + Rocks(Walls(paths))
    {
      for i := 0 to |paths|
        invariant cells == old(cells) + Rocks(Walls(paths[..i]))
      {
        DrawPath(paths[i]);
        WallsSnoc(paths, i);
        RocksUnion(old(cells), Walls(paths[..i]), PathRock(paths[i]));
      }
      assert paths[..|paths|] == paths;
    }

    /** The lowest row `Display` draws: the floor in a floored cave, the
        lowest wall otherwise. */
    function MaxRow(): int {
      if floored then maxWallY + 2 else maxWallY
    }

    /** Row `y` of the picture, columns `minx` to `maxx`. */
    function Row(stored: map<Point, Cell>, minx: int, maxx: int, y: int): (r: string)
      ensures |r| == Width(minx, maxx)
      ensures forall i :: 0 <= i < |r| ==> r[i] == Glyph(Get(stored, (minx + i, y)))
    {
      seq(Width(minx, maxx), i => Glyph(Get(stored, (minx + i, y))))
    }

    /** The picture `Display` draws: rows 0 to `MaxRow()`, each spanning the
        columns `minx` to `maxx`. */
    function Picture(stored: map<Point, Cell>, minx: int, maxx: int): (r: seq<string>)
      ensures |r| == if MaxRow() >= 0 then MaxRow() + 1 else 0
      ensures forall y :: 0 <= y < |r| ==> r[y] == Row(stored, minx, maxx, y)
    {
      seq(if MaxRow() >= 0 then MaxRow() + 1 else 0, y => Row(stored, minx, maxx, y))
    }

    /** The `min` and `max` over the x of every stored cell in `Display`. */
    method XRange() returns (minx: int, maxx: int)
      requires cells != map[]
      ensures minx == MinX(cells.Keys) && maxx == MaxX(cells.Keys)
    {
      var rest := cells.Keys;
      var p :| p in rest;
      minx, maxx := p.0, p.0;
      rest := rest - {p};
      while rest != {}
        invariant rest <= cells.Keys
        invariant exists q :: q in cells.Keys && q.0 == minx
        invariant exists q :: q in cells.Keys && q.0 == maxx
        invariant forall q :: q in cells.Keys && q !in rest ==> minx <= q.0 <= maxx
        decreases rest
      {
        var q :| q in rest;
        if q.0 < minx {
          minx := q.0;
        }
        if q.0 > maxx {
          maxx := q.0;
        }
        rest := rest - {q};
      }
      var lo, hi := MinX(cells.Keys), MaxX(cells.Keys);
      assert minx <= lo && lo <= minx;
      assert hi <= maxx && maxx <= hi;
    }

    /** The inner loop of `Display for Cave`: the glyphs of row `y` from
        column `minx` to `maxx`. */
    method DrawRow(minx: int, maxx: int, y: int) returns (row: string)
      requires minx <= maxx
      ensures row == Row(cells, minx, maxx, y)
    {
      ghost var full := Row(cells, minx, maxx, y);
      row := "";
      for x := minx to maxx + 1
        invariant row == full[..x - minx]
      {
        assert full[..x + 1 - minx] == full[..x - minx] + [full[x - minx]];
        row := row + [Glyph(Get(cells, (x, y)))];
      }
      assert full[..maxx + 1 - minx] == full;
    }

    /** `Display for Cave`: the rows of the picture joined by newlines, over
        the columns from the leftmost to the rightmost stored cell (a panic
        when no cell is stored). */
    method Render() returns (r: Option<string>)
      ensures r.None? <==> cells == map[]
      ensures r.Some? ==> r.value == Join(Picture(cells, MinX(cells.Keys), MaxX(cells.Keys)), "\n")
    {
      if cells == map[] {
        return None;
      }
      var minx, maxx := XRange();
      var maxy := if floored then maxWallY + 2 else maxWallY;
      ghost var pic := Picture(cells, minx, maxx);
      var s := "";
      var y := 0;
      while y <= maxy
        invariant 0 <= y && (maxy >= 0 ==> y <= maxy + 1) && (maxy < 0 ==> y == 0)
        invariant s == Join(pic[..y], "\n")
      {
        if y != 0 {
          s := s + "\n";
        }
        var row := DrawRow(minx, maxx, y);
        s := s + row;
        if y == 0 {
          assert pic[..1] == [row];
        } else {
          assert pic[..y + 1] == pic[..y] + [row];
          JoinSnoc(pic[..y], row, "\n");
        }
        y := y + 1;
      }
      assert pic[..y] == pic;
      return Some(s);
    }

    /** `Cave::process_one_sand`: drop one grain from the generator. When it
        comes to rest its cell becomes dead sand and nothing else changes;
        when it falls into the abyss the cave is unchanged. */
    method ProcessOneSand() returns (r: Option<Point>)
      requires !floored || maxWallY >= -1
      modifies this
      ensures r == Fall(old(cells), Generator)
      ensures cells == if r.Some? then old(cells)[r.value := DeadSand] else old(cells)
    {
      var pos := Generator;
      while true
        invariant !floored || pos.1 <= maxWallY + 1
        invariant cells == old(cells)
        invariant Fall(cells, pos) == Fall(cells, Generator)
        decreases if pos.1 <= maxWallY + 1 then maxWallY + 1 - pos.1 else 0
      {
        if InAbyss(pos) {
          return None;
        }
        var next := NextPos(cells, pos);
        match next
        case Some(p) =>
          pos := p;
        case None =>
          Set(pos, DeadSand);
          return Some(pos);
      }
    }

    /** The cells after `n` grains have been poured onto `stored` one after
        another: each comes to rest where its fall from the generator ends,
        and a grain that falls into the abyss changes nothing. */
    function Poured(stored: map<Point, Cell>, n: nat): map<Point, Cell>
      requires !floored
    {
      if n == 0 then stored
      else
        var prev := Poured(stored, n - 1);
        match Fall(prev, Generator)
        case None => prev
        case Some(p) => prev[p := DeadSand]
    }

    /** The first `n` grains poured onto `stored` each come to rest, and
        each while the source is still free. */
    /** What `Pour` knows after `n` grains came to rest: they are the dead
        sand of `stored`, all inside the cone, and `stored` is what pouring
        them one by one onto `start` gives. */
    predicate Pouring(start: map<Point, Cell>, stored: map<Point, Cell>, n: nat)
      requires !floored
    {
      && n == |Dead(stored)|
      && Dead(stored) <= Cone(maxWallY)
      && stored == start + Sands(Dead(stored))
      && stored == Poured(start, n)
      && PoursFreely(start, n)
    }

    predicate PoursFreely(stored: map<Point, Cell>, n: nat)
      requires !floored
    {
      n == 0 ||
      (PoursFreely(stored, n - 1)
       && Fall(Poured(stored, n - 1), Generator).Some?
       && Generator !in Dead(Poured(stored, n - 1)))
    }

    /** The loop of `p1::solve`, corrected to stop once a grain comes to rest
        on the generator: pour grains until one falls into the abyss or the
        source is buried. Every grain that comes to rest is counted, rests in
        the cone below the generator, and nothing but resting sand is
        added. */
    method Pour() returns (count: nat)
      requires !floored && Dead(cells) == {}
      modifies this
      ensures Pouring(old(cells), cells, count)
      ensures Fall(cells, Generator).None? || Generator in Dead(cells)
    {
      count := 0;
      ghost var start := cells;
      assert start + Sands({}) == start;
      while true
        invariant Pouring(start, cells, count) && Generator !in Dead(cells)
        decreases |Cone(maxWallY) - Dead(cells)|
      {
        ghost var before := cells;
        var r := ProcessOneSand();
        if r.None? {
          return;
        }
        var p := r.value;
        PourStep(this, start, before, count, p);
        count := count + 1;
        if p == Generator {
          return;
        }
      }
    }
  }

  /** The loop of `Pour` keeps its invariants when one more grain comes to
      rest at `p`. */
  lemma PourStep(c: Cave, start: map<Point, Cell>, before: map<Point, Cell>, n: nat, p: Point)
    requires !c.floored && c.Fall(before, Generator) == Some(p)
    requires c.Pouring(start, before, n) && Generator !in Dead(before)
    ensures c.Pouring(start, before[p := DeadSand], n + 1)
    ensures Dead(before[p := DeadSand]) == Dead(before) + {p}
    ensures |Cone(c.maxWallY) - Dead(before[p := DeadSand])| < |Cone(c.maxWallY) - Dead(before)|
  {
    Settles(c, before, p);
    SandsAdd(start, Dead(before), p);
    PouredStep(c, start, n, p);
  }

  /** One more grain that comes to rest at `p` adds dead sand at `p`. */
  lemma PouredStep(c: Cave, stored: map<Point, Cell>, n: nat, p: Point)
    requires !c.floored && c.Fall(c.Poured(stored, n), Generator) == Some(p)
    ensures c.Poured(stored, n + 1) == c.Poured(stored, n)[p := DeadSand]
  {
  }

  /** Grains that pour freely up to `n` pour freely at every earlier step:
      grain `k` comes to rest while the source is free. */
  lemma {:induction false} PoursFreelyAt(c: Cave, stored: map<Point, Cell>, n: nat, k: nat)
    requires !c.floored && c.PoursFreely(stored, n) && k < n
    ensures c.Fall(c.Poured(stored, k), Generator).Some?
    ensures Generator !in Dead(c.Poured(stored, k))
    decreases n
  {
    if k < n - 1 {
      PoursFreelyAt(c, stored, n - 1, k);
    }
  }

  /** The count `Pour` stops at is determined by the cave: it is the first
      grain that falls into the abyss or finds the source buried. */
  lemma PourCountUnique(c: Cave, stored: map<Point, Cell>, m: nat, n: nat)
    requires !c.floored && c.PoursFreely(stored, m) && c.PoursFreely(stored, n)
    requires c.Fall(c.Poured(stored, m), Generator).None? || Generator in Dead(c.Poured(stored, m))
    requires c.Fall(c.Poured(stored, n), Generator).None? || Generator in Dead(c.Poured(stored, n))
    ensures m == n
  {
    if m < n {
      PoursFreelyAt(c, stored, n, m);
    } else if n < m {
      PoursFreelyAt(c, stored, m, n);
    }
  }

  /** A grain poured into a cave without a floor, whose source is not yet
      buried, comes to rest on a new place in the cone. */
  lemma Settles(c: Cave, stored: map<Point, Cell>, p: Point)
    requires !c.floored && c.Fall(stored, Generator) == Some(p)
    requires Generator !in Dead(stored) && Dead(stored) <= Cone(c.maxWallY)
    ensures Dead(stored[p := DeadSand]) == Dead(stored) + {p}
    ensures |Dead(stored[p := DeadSand])| == |Dead(stored)| + 1
    ensures Dead(stored[p := DeadSand]) <= Cone(c.maxWallY)
    ensures |Cone(c.maxWallY) - Dead(stored[p := DeadSand])| < |Cone(c.maxWallY) - Dead(stored)|
  {
    FallLands(c, stored, Generator);
    InCone(c, p);
    DeadAdd(stored, p);
    Shrinks(Cone(c.maxWallY), Dead(stored), p);
  }

  /** The cone holds every point it is described by. */
  lemma InCone(c: Cave, p: Point)
    requires 0 <= p.1 <= c.maxWallY && Abs(p.0 - 500) <= p.1
    ensures p in Cone(c.maxWallY)
  {
    var (x, y) := p;
    assert 500 - y <= x <= 500 + y;
  }

  /** The number of columns from `minx` to `maxx`. */
  function Width(minx: int, maxx: int): nat {
    if maxx >= minx then maxx - minx + 1 else 0
  }

  /** The character `Display` draws for a cell. */
  function Glyph(c: Cell): char {
    match c
    case Empty => '.'
    case Rock => '#'
    case SandSource => '+'
    case DeadSand => 'o'
  }

  /** The smallest x among some points. */
  ghost function MinX(keys: set<Point>): (r: int)
    requires keys != {}
    ensures (exists p :: p in keys && p.0 == r) && forall p :: p in keys ==> r <= p.0
    decreases keys
  {
    var p :| p in keys;
    if keys == {p} then p.0
    else
      var m := MinX(keys - {p});
      if p.0 < m then p.0 else m
  }

  /** The largest x among some points. */
  ghost function MaxX(keys: set<Point>): (r: int)
    requires keys != {}
    ensures (exists p :: p in keys && p.0 == r) && forall p :: p in keys ==> p.0 <= r
    decreases keys
  {
    var p :| p in keys;
    if keys == {p} then p.0
    else
      var m := MaxX(keys - {p});
      if p.0 > m then p.0 else m
  }

  /** The places a grain from the generator can reach down to row `depth`,
      widening by one column per row. */
  function Cone(depth: int): set<Point> {
    set y: int, x: int | 0 <= y <= depth && 500 - y <= x <= 500 + y :: (x, y)
  }

  /** Every point of `s` marked as resting sand. */
  function Sands(s: set<Point>): map<Point, Cell> {
    map p | p in s :: DeadSand
  }

  /** A grain coming to rest where there was none adds one resting grain. */
  lemma DeadAdd(stored: map<Point, Cell>, p: Point)
    requires p !in Dead(stored)
    ensures Dead(stored[p := DeadSand]) == Dead(stored) + {p}
    ensures |Dead(stored[p := DeadSand])| == |Dead(stored)| + 1
  {
  }

  lemma SandsAdd(m: map<Point, Cell>, a: set<Point>, q: Point)
    ensures (m + Sands(a))[q := DeadSand] == m + Sands(a + {q})
  {
  }

  lemma Shrinks(a: set<Point>, b: set<Point>, p: Point)
    requires p in a && p !in b
    ensures |a - (b + {p})| < |a - b|
  {
    assert a - b == (a - (b + {p})) + {p};
  }

  /** A grain comes to rest at a place it cannot leave, above the abyss,
      inside the cone that widens by one column per row below where it
      started; unless it never moved, the place it rests on was empty. */
  lemma {:induction false} FallLands(c: Cave, stored: map<Point, Cell>, pos: Point)
    requires !c.floored || pos.1 <= c.maxWallY + 1
    requires c.Fall(stored, pos).Some?
    ensures var p := c.Fall(stored, pos).value;
      && !c.InAbyss(p)
      && (forall k :: 0 <= k < 3 ==> c.Get(stored, Below(p)[k]) != Empty)
      && pos.1 <= p.1 && Abs(p.0 - pos.0) <= p.1 - pos.1
      && (p != pos ==> c.Get(stored, p) == Empty)
    decreases if pos.1 <= c.maxWallY + 1 then c.maxWallY + 1 - pos.1 else 0
  {
    match c.NextPos(stored, pos)
    case None =>
    case Some(q) =>
      FallLands(c, stored, q);
  }

  /** A cave with a floor catches every grain, at the latest on the row just
      above the floor. */
  lemma {:induction false} FloorCatches(c: Cave, stored: map<Point, Cell>, pos: Point)
    requires c.floored && pos.1 <= c.maxWallY + 1
    ensures c.Fall(stored, pos).Some?
    ensures c.Fall(stored, pos).value.1 <= c.maxWallY + 1
    decreases c.maxWallY + 1 - pos.1
  {
    match c.NextPos(stored, pos)
    case None =>
    case Some(q) =>
      FloorCatches(c, stored, q);
  }

  /** A grain only looks at the cells below it: two cell maps that agree on
      every row below `pos` give the same fall. */
  lemma {:induction false} FallLooksDown(c: Cave, s1: map<Point, Cell>, s2: map<Point, Cell>, pos: Point)
    requires !c.floored || pos.1 <= c.maxWallY + 1
    requires forall p: Point :: p.1 > pos.1 ==> c.Get(s1, p) == c.Get(s2, p)
    ensures c.Fall(s1, pos) == c.Fall(s2, pos)
    decreases if pos.1 <= c.maxWallY + 1 then c.maxWallY + 1 - pos.1 else 0
  {
    var b := Below(pos);
    assert c.Get(s1, b[0]) == c.Get(s2, b[0]);
    assert c.Get(s1, b[1]) == c.Get(s2, b[1]);
    assert c.Get(s1, b[2]) == c.Get(s2, b[2]);
    assert c.FirstEmpty(s1, b) == c.FirstEmpty(s2, b) by {
      assert b[1..][1..][1..] == [];
    }
    if !c.InAbyss(pos) {
      match c.NextPos(s1, pos)
      case None =>
      case Some(q) =>
        FallLooksDown(c, s1, s2, q);
    }
  }

  // Rock walls

  /** The Manhattan distance from `a` to `b`, which every signum step
      towards `b` reduces. */
  function Dist(a: Point, b: Point): nat {
    Abs(b.0 - a.0) + Abs(b.1 - a.1)
  }

  /** One signum step from `a` towards `b`. */
  function StepTowards(a: Point, b: Point): Point {
    (a.0 + Signum(b.0 - a.0), a.1 + Signum(b.1 - a.1))
  }

  /** The points the wall-drawing loop sets, walking from `a` to `b` by signum
      steps: not `a` itself, and ending with `b`. */
  function Line(a: Point, b: Point): (r: seq<Point>)
    ensures a == b <==> r == []
    ensures r != [] ==> r[|r| - 1] == b
    decreases Dist(a, b)
  {
    if a == b then [] else [StepTowards(a, b)] + Line(StepTowards(a, b), b)
  }

  /** `p` lies in the box spanned by `a` and `b`, borders included. */
  predicate InBox(a: Point, b: Point, p: Point) {
    (a.0 <= p.0 <= b.0 || b.0 <= p.0 <= a.0) && (a.1 <= p.1 <= b.1 || b.1 <= p.1 <= a.1)
  }

  /** A drawn line stays inside the box of its two end points. */
  lemma {:induction false} LineInBox(a: Point, b: Point)
    ensures forall p :: p in Line(a, b) ==> InBox(a, b, p)
    decreases Dist(a, b)
  {
    if a != b {
      LineInBox(StepTowards(a, b), b);
    }
  }

  /** A horizontal or vertical line together with its start is exactly the
      segment between its end points: every point in between is drawn, and
      nothing else. */
  lemma {:induction false} LineIsSegment(a: Point, b: Point)
    requires a.0 == b.0 || a.1 == b.1
    ensures forall p :: p == a || p in Line(a, b) <==> InBox(a, b, p)
    decreases Dist(a, b)
  {
    if a != b {
      var s := StepTowards(a, b);
      LineIsSegment(s, b);
      assert Line(a, b) == [s] + Line(s, b);
      forall p ensures p == a || p in Line(a, b) <==> InBox(a, b, p) {
        assert p in Line(a, b) <==> p == s || p in Line(s, b);
      }
    }
  }

  // Parsing

  /** One vertex `x,y` of a path; a missing comma or a malformed number is a
      panic, `None`. */
  function ParsePoint(s: string): (r: Option<Point>)
    ensures r.Some? ==> exists x, y :: s == x + "," + y && ParseInt(x) == Some(r.value.0) && ParseInt(y) == Some(r.value.1)
  {
    match SplitOnce(s, ",")
    case None => None
    case Some((x, y)) =>
      match (ParseInt(x), ParseInt(y))
      case (Some(px), Some(py)) => Some((px, py))
      case _ => None
  }

  /** Every piece parsed as a vertex, or `None` if any is malformed. */
  function ParsePoints(pieces: seq<string>): (r: Option<seq<Point>>)
    ensures r.Some? ==> |r.value| == |pieces|
    ensures r.Some? ==> forall k :: 0 <= k < |pieces| ==> ParsePoint(pieces[k]) == Some(r.value[k])
    ensures r.None? ==> exists k :: 0 <= k < |pieces| && ParsePoint(pieces[k]).None?
  {
    Collect(seq(|pieces|, k requires 0 <= k < |pieces| => ParsePoint(pieces[k])))
  }

  /** `Path::from_str`: the trimmed line split on " -> " into vertices. */
  function ParsePath(line: string): (r: Option<seq<Point>>)
    ensures r.Some? ==> |r.value| >= 1
  {
    ParsePoints(Split(Trim(line), " -> "))
  }

  /** A vertex written as the puzzle writes it. */
  function PointText(p: Point): string {
    IntToString(p.0) + "," + IntToString(p.1)
  }

  /** A path written as the puzzle writes it. */
  function PathText(path: seq<Point>): string {
    Join(PointTexts(path), " -> ")
  }

  function PointTexts(path: seq<Point>): (r: seq<string>)
    ensures |r| == |path| && forall k :: 0 <= k < |path| ==> r[k] == PointText(path[k])
  {
    if path == [] then [] else [PointText(path[0])] + PointTexts(path[1..])
  }

  /** A written vertex parses back to itself. */
  lemma PointRoundTrip(p: Point)
    ensures ParsePoint(PointText(p)) == Some(p)
  {
    IntToStringAvoids(p.0, ',');
    SplitOnceAfter(IntToString(p.0), ",", IntToString(p.1));
    ParseIntToString(p.0);
    ParseIntToString(p.1);
  }

  /** Pieces that each parse as the matching vertex parse as the path. */
  lemma ParsePointsAll(pieces: seq<string>, path: seq<Point>)
    requires |pieces| == |path|
    requires forall k :: 0 <= k < |pieces| ==> ParsePoint(pieces[k]) == Some(path[k])
    ensures ParsePoints(pieces) == Some(path)
  {
    var r := ParsePoints(pieces);
    assert r.Some?;
    assert r.value == path;
  }

  lemma PointsRoundTrip(path: seq<Point>)
    ensures ParsePoints(PointTexts(path)) == Some(path)
  {
    forall k | 0 <= k < |path| ensures ParsePoint(PointTexts(path)[k]) == Some(path[k]) {
      PointRoundTrip(path[k]);
    }
    ParsePointsAll(PointTexts(path), path);
  }

  /** A written path parses back to itself. */
  lemma PathRoundTrip(path: seq<Point>)
    requires |path| >= 1
    ensures ParsePath(PathText(path)) == Some(path)
  {
    var texts := PointTexts(path);
    forall k | 0 <= k < |texts| ensures ' ' !in texts[k] {
      IntToStringAvoids(path[k].0, ' ');
      IntToStringAvoids(path[k].1, ' ');
    }
    SplitJoin(texts, " -> ");
    var s := PathText(path);
    JoinEndsWith(texts, " -> ");
    TextEnds(path[|path| - 1]);
    TextStarts(texts, path[0]);
    TrimUnchanged(s);
    PointsRoundTrip(path);
  }

  lemma TextEnds(p: Point)
    ensures !IsWhitespace(PointText(p)[|PointText(p)| - 1])
  {
    var y := IntToString(p.1);
    assert PointText(p)[|PointText(p)| - 1] == y[|y| - 1];
    if p.1 < 0 {
      NatToStringEnd(-p.1);
      assert y[|y| - 1] == NatToString(-p.1)[|NatToString(-p.1)| - 1];
    } else {
      NatToStringEnd(p.1);
    }
  }

  lemma TextStarts(texts: seq<string>, p: Point)
    requires |texts| >= 1 && texts[0] == PointText(p)
    ensures Join(texts, " -> ") != [] && !IsWhitespace(Join(texts, " -> ")[0])
  {
    var x := IntToString(p.0);
    assert PointText(p)[0] == x[0];
    if p.0 < 0 {
      assert x[0] == '-';
    } else {
      assert AllDigits(x);
    }
    if |texts| > 1 {
      JoinCons(texts[0], texts[1..], " -> ");
      assert texts == [texts[0]] + texts[1..];
    }
  }

  /** No newline occurs in a written path. */
  lemma PathTextAvoids(path: seq<Point>)
    ensures '\n' !in PathText(path)
  {
    var texts := PointTexts(path);
    forall k | 0 <= k < |texts| ensures '\n' !in texts[k] {
      IntToStringAvoids(path[k].0, '\n');
      IntToStringAvoids(path[k].1, '\n');
    }
    JoinAvoids(texts, " -> ", '\n');
  }

  /** Paths written one per line, as the puzzle input has them. */
  function PathTexts(paths: seq<seq<Point>>): (r: seq<string>)
    ensures |r| == |paths| && forall k :: 0 <= k < |paths| ==> r[k] == PathText(paths[k])
  {
    if paths == [] then [] else [PathText(paths[0])] + PathTexts(paths[1..])
  }

  /** Lines that each parse as the matching path parse as the paths. */
  lemma ParsePathsAll(lines: seq<string>, paths: seq<seq<Point>>)
    requires |lines| == |paths|
    requires forall k :: 0 <= k < |lines| ==> ParsePath(lines[k]) == Some(paths[k])
    ensures ParsePaths(lines) == Some(paths)
  {
    var r := ParsePaths(lines);
    assert r.Some?;
    assert r.value == paths;
  }

  /** A written puzzle input parses back to its paths. */
  lemma InputRoundTrip(paths: seq<seq<Point>>)
    requires |paths| >= 1 && forall k :: 0 <= k < |paths| ==> |paths[k]| >= 1
    ensures ScanPaths(Join(PathTexts(paths), "\n")) == Some(paths)
  {
    var lines := PathTexts(paths);
    forall k | 0 <= k < |lines| ensures '\n' !in lines[k] && ParsePath(lines[k]) == Some(paths[k]) {
      PathTextAvoids(paths[k]);
      PathRoundTrip(paths[k]);
    }
    var last := paths[|paths| - 1];
    TextStarts(PointTexts(last), last[0]);
    assert lines[|lines| - 1] == PathText(last) != [];
    LinesOfJoin(lines);
    ParsePathsAll(lines, paths);
    assert ScanPaths(Join(lines, "\n")) == ParsePaths(lines);
  }

  /** Every line parsed as a path, or `None` if any is malformed. */
  function ParsePaths(lines: seq<string>): (r: Option<seq<seq<Point>>>)
    ensures r.Some? ==> |r.value| == |lines|
    ensures r.Some? ==> forall k :: 0 <= k < |lines| ==> ParsePath(lines[k]) == Some(r.value[k])
    ensures r.Some? ==> forall k :: 0 <= k < |r.value| ==> |r.value[k]| >= 1
  {
    Collect(seq(|lines|, k requires 0 <= k < |lines| => ParsePath(lines[k])))
  }

  /** All vertices of all paths, in order. */
  function Vertices(paths: seq<seq<Point>>): seq<Point> {
    if paths == [] then [] else paths[0] + Vertices(paths[1..])
  }

  /** The largest y among `pts`, `None` when there is none. */
  function MaxY(pts: seq<Point>): (r: Option<int>)
    ensures r.None? <==> pts == []
    ensures r.Some? ==> (exists k :: 0 <= k < |pts| && pts[k].1 == r.value)
    ensures r.Some? ==> forall k :: 0 <= k < |pts| ==> pts[k].1 <= r.value
  {
    if pts == [] then None
    else
      match MaxY(pts[1..])
      case None => Some(pts[0].1)
      case Some(m) => Some(if pts[0].1 > m then pts[0].1 else m)
  }

  // The rock the walls are drawn with

  /** The points of a sequence, as a set. */
  function Elems(l: seq<Point>): (r: set<Point>)
    ensures forall p :: p in r <==> p in l
  {
    set k | 0 <= k < |l| :: l[k]
  }

  /** The rock points of one path: its first vertex and every line drawn to
      the following vertices. */
  function PathRock(path: seq<Point>): set<Point>
    requires |path| >= 1
  {
    if |path| == 1 then {path[0]}
    else PathRock(path[..|path| - 1]) + Elems(Line(path[|path| - 2], path[|path| - 1]))
  }

  /** The rock points of all paths. */
  function Walls(paths: seq<seq<Point>>): set<Point>
    requires forall k :: 0 <= k < |paths| ==> |paths[k]| >= 1
  {
    if paths == [] then {}
    else Walls(paths[..|paths| - 1]) + PathRock(paths[|paths| - 1])
  }

  /** Every vertex of a path, and every point between two consecutive
      vertices joined horizontally or vertically, is rock. */
  lemma {:induction false} PathRockCovers(path: seq<Point>, k: nat)
    requires k < |path|
    ensures path[k] in PathRock(path)
    ensures k + 1 < |path| && (path[k].0 == path[k + 1].0 || path[k].1 == path[k + 1].1) ==>
      forall p :: InBox(path[k], path[k + 1], p) ==> p in PathRock(path)
    decreases |path|
  {
    var n := |path|;
    if n > 1 {
      var init := path[..n - 1];
      if k < n - 1 {
        PathRockCovers(init, k);
        assert init[k] == path[k];
        if k + 1 < n - 1 {
          assert init[k + 1] == path[k + 1];
        }
      }
      if k + 1 == n - 1 && (path[k].0 == path[k + 1].0 || path[k].1 == path[k + 1].1) {
        LineIsSegment(path[k], path[k + 1]);
      }
      if k == n - 1 {
        assert path[k] in Line(path[n - 2], path[n - 1]) || path[n - 2] == path[n - 1];
        if path[n - 2] == path[n - 1] {
          PathRockCovers(init, n - 2);
        }
      }
    }
  }

  /** Nothing but the vertices and the points between consecutive vertices
      is rock. */
  lemma {:induction false} PathRockWithin(path: seq<Point>, p: Point)
    requires |path| >= 1 && p in PathRock(path)
    ensures p == path[0] || exists k :: 0 <= k < |path| - 1 && InBox(path[k], path[k + 1], p)
    decreases |path|
  {
    var n := |path|;
    if n > 1 {
      var init := path[..n - 1];
      if p in PathRock(init) {
        PathRockWithin(init, p);
        if p != path[0] {
          var k :| 0 <= k < |init| - 1 && InBox(init[k], init[k + 1], p);
          assert InBox(path[k], path[k + 1], p);
        }
      } else {
        LineInBox(path[n - 2], path[n - 1]);
        assert InBox(path[n - 2], path[n - 1], p);
      }
    }
  }

  /** A path whose vertices all lie at or above row `m` draws no rock below it. */
  lemma {:induction false} PathRockAbove(path: seq<Point>, m: int)
    requires |path| >= 1
    requires forall k :: 0 <= k < |path| ==> path[k].1 <= m
    ensures forall p :: p in PathRock(path) ==> p.1 <= m
  {
    forall p | p in PathRock(path) ensures p.1 <= m {
      PathRockWithin(path, p);
    }
  }

  /** The rock of every path is part of the walls. */
  lemma {:induction false} WallsHold(paths: seq<seq<Point>>, i: nat)
    requires forall k :: 0 <= k < |paths| ==> |paths[k]| >= 1
    requires i < |paths|
    ensures PathRock(paths[i]) <= Walls(paths)
    decreases |paths|
  {
    if i < |paths| - 1 {
      WallsHold(paths[..|paths| - 1], i);
    }
  }

  /** The walls are the rock of the paths and nothing more. */
  lemma {:induction false} WallsWithin(paths: seq<seq<Point>>, p: Point)
    requires forall k :: 0 <= k < |paths| ==> |paths[k]| >= 1
    requires p in Walls(paths)
    ensures exists i :: 0 <= i < |paths| && p in PathRock(paths[i])
    decreases |paths|
  {
    var n := |paths|;
    if p !in PathRock(paths[n - 1]) {
      WallsWithin(paths[..n - 1], p);
      var i :| 0 <= i < n - 1 && p in PathRock(paths[..n - 1][i]);
      assert paths[..n - 1][i] == paths[i];
    }
  }

  /** All rock lies at or above the lowest vertex. */
  lemma WallsAboveMax(paths: seq<seq<Point>>)
    requires forall k :: 0 <= k < |paths| ==> |paths[k]| >= 1
    requires MaxY(Vertices(paths)).Some?
    ensures forall p :: p in Walls(paths) ==> p.1 <= MaxY(Vertices(paths)).value
  {
    var m := MaxY(Vertices(paths)).value;
    forall p | p in Walls(paths) ensures p.1 <= m {
      WallsWithin(paths, p);
      var i :| 0 <= i < |paths| && p in PathRock(paths[i]);
      forall k | 0 <= k < |paths[i]| ensures paths[i][k].1 <= m {
        VerticesHold(paths, i, k);
      }
      PathRockAbove(paths[i], m);
    }
  }

  lemma {:induction false} VerticesHold(paths: seq<seq<Point>>, i: nat, k: nat)
    requires i < |paths| && k < |paths[i]|
    ensures paths[i][k] in Vertices(paths)
  {
    if i > 0 {
      VerticesHold(paths[1..], i - 1, k);
    }
  }

  /** Setting one more point to rock extends the drawn rock by that point. */
  lemma RocksAdd(m: map<Point, Cell>, a: set<Point>, q: Point)
    ensures (m + Rocks(a))[q := Rock] == m + Rocks(a + {q})
  {
  }

  /** The paths of the input, or `None` when a line is malformed. */
  function ScanPaths(s: string): (r: Option<seq<seq<Point>>>)
    ensures r.Some? ==> forall k :: 0 <= k < |r.value| ==> |r.value[k]| >= 1
  {
    ParsePaths(Lines(s))
  }

  /** Every path has a vertex, so there are vertices exactly when there are
      paths. */
  lemma {:induction false} VerticesEmpty(paths: seq<seq<Point>>)
    requires forall k :: 0 <= k < |paths| ==> |paths[k]| >= 1
    ensures Vertices(paths) == [] <==> paths == []
  {
  }

  /** The building half of `Cave::from_str`: the lowest wall row is the
      largest y of any vertex (a panic when there is none); every path is
      drawn in rock and the generator is marked as the sand source. */
  method Build(floored: bool, paths: seq<seq<Point>>) returns (r: Option<Cave>)
    requires forall k :: 0 <= k < |paths| ==> |paths[k]| >= 1
    ensures r.Some? <==> paths != []
    ensures r.Some? ==>
      && fresh(r.value) && r.value.floored == floored
      && r.value.maxWallY == MaxY(Vertices(paths)).value
      && r.value.cells == Rocks(Walls(paths))[Generator := SandSource]
  {
    VerticesEmpty(paths);
    var maxWallY := MaxY(Vertices(paths));
    if maxWallY.None? {
      return None;
    }
    var cave := new Cave(floored, maxWallY.value);
    cave.DrawWalls(paths);
    assert map[] + Rocks(Walls(paths)) == Rocks(Walls(paths));
    cave.Set(Generator, SandSource);
    return Some(cave);
  }

  /** `Cave::from_str`: every line parsed as a path (a malformed line is a
      panic), then the cave built from the paths. */
  method ParseCave(floored: bool, s: string) returns (r: Option<Cave>)
    ensures r.Some? <==> ScanPaths(s).Some? && ScanPaths(s).value != []
    ensures r.Some? ==> var paths := ScanPaths(s).value;
      && fresh(r.value) && r.value.floored == floored
      && r.value.maxWallY == MaxY(Vertices(paths)).value
      && r.value.cells == Rocks(Walls(paths))[Generator := SandSource]
  {
    var scanned := ScanPaths(s);
    if scanned.None? {
      return None;
    }
    r := Build(floored, scanned.value);
  }

  lemma StepIs(a: Point, b: Point, dx: int, dy: int)
    requires dx == Signum(b.0 - a.0) && dy == Signum(b.1 - a.1)
    ensures (a.0 + dx, a.1 + dy) == StepTowards(a, b)
  {
  }

  lemma StepCloser(a: Point, b: Point)
    requires a != b
    ensures Dist(StepTowards(a, b), b) < Dist(a, b)
  {
  }

  lemma LineStep(a: Point, b: Point)
    requires a != b
    ensures Line(a, b) == [StepTowards(a, b)] + Line(StepTowards(a, b), b)
  {
  }

  lemma ConcatAssoc(x: seq<Point>, y: seq<Point>, z: seq<Point>)
    ensures x + (y + z) == (x + y) + z
  {
  }

  lemma ElemsSnoc(l: seq<Point>, q: Point)
    ensures Elems(l + [q]) == Elems(l) + {q}
  {
    assert forall p :: p in l + [q] <==> p in l || p == q;
  }

  lemma RocksUnion(m: map<Point, Cell>, a: set<Point>, b: set<Point>)
    ensures m + Rocks(a) + Rocks(b) == m + Rocks(a + b)
  {
  }

  lemma RocksJoin(a: set<Point>, b: set<Point>)
    ensures Rocks(a) + Rocks(b) == Rocks(a + b)
  {
  }

  lemma WallsSnoc(paths: seq<seq<Point>>, i: nat)
    requires forall k :: 0 <= k < |paths| ==> |paths[k]| >= 1
    requires i < |paths|
    ensures Walls(paths[..i + 1]) == Walls(paths[..i]) + PathRock(paths[i])
  {
    assert paths[..i + 1][..i] == paths[..i];
  }

  /** One more vertex adds the line drawn to it. */
  lemma PathRockSnoc(path: seq<Point>, k: nat)
    requires 1 <= k < |path|
    ensures PathRock(path[..k + 1]) == PathRock(path[..k]) + Elems(Line(path[k - 1], path[k]))
  {
    assert path[..k + 1][..k] == path[..k];
  }

  /** A freshly built cave holds no resting sand. */
  lemma NoSandYet(walls: set<Point>)
    ensures Dead(Rocks(walls)[Generator := SandSource]) == {}
  {
  }

  /** `p1::solve`, with the loop corrected to stop once the source is
      buried: the number of grains that come to rest in the cave without a
      floor. Each rests on its own place of the cone below the generator, so
      there are at most as many as the cone has places. */
  method SolveP1(input: string) returns (r: Option<nat>)
    ensures r.Some? <==> ScanPaths(input).Some? && ScanPaths(input).value != []
    ensures r.Some? ==> r.value <= |Cone(MaxY(Vertices(ScanPaths(input).value)).value)|
  {
    var parsed := ParseCave(false, input);
    if parsed.None? {
      return None;
    }
    var cave := parsed.value;
    NoSandYet(Walls(ScanPaths(input).value));
    var count := cave.Pour();
    assert Dead(cave.cells) <= Cone(cave.maxWallY);
    CardSubset(Dead(cave.cells), Cone(cave.maxWallY));
    return Some(count);
  }

  lemma CardSubset(a: set<Point>, b: set<Point>)
    requires a <= b
    ensures |a| <= |b|
  {
    assert b == a + (b - a);
  }

  /** As written, `p1::solve` calls `process_one_sand` until a grain falls
      into the abyss. Once a grain has come to rest on the generator, the
      next one comes to rest there too and leaves the cells as they were, so
      that loop never ends. */
  lemma SourceBlockedRepeats(c: Cave, stored: map<Point, Cell>)
    requires !c.floored || c.maxWallY >= -1
    requires c.Fall(stored, Generator) == Some(Generator)
    ensures c.Fall(stored[Generator := DeadSand], Generator) == Some(Generator)
    ensures stored[Generator := DeadSand][Generator := DeadSand] == stored[Generator := DeadSand]
  {
    FallLooksDown(c, stored, stored[Generator := DeadSand], Generator);
  }

  lemma BlockedNumbers()
    ensures IntToString(499) == "499" && IntToString(501) == "501" && IntToString(1) == "1"
  {
    assert NatToString(49) == "49" && NatToString(50) == "50";
  }

  /** The input `499,1 -> 501,1`: a wall of three rocks right below the
      generator. */
  lemma BlockedInput()
    ensures ScanPaths("499,1 -> 501,1") == Some([[(499, 1), (501, 1)]])
  {
    var path := [(499, 1), (501, 1)];
    BlockedNumbers();
    assert PointText(path[0]) == "499,1" && PointText(path[1]) == "501,1";
    var texts := PointTexts(path);
    assert texts == ["499,1", "501,1"];
    JoinCons("499,1", ["501,1"], " -> ");
    assert PathText(path) == "499,1 -> 501,1";
    InputRoundTrip([path]);
    assert PathTexts([path]) == [PathText(path)];
  }

  /** The walls and the lowest wall row of that input. */
  lemma BlockedWalls()
    ensures Walls([[(499, 1), (501, 1)]]) == {(499, 1), (500, 1), (501, 1)}
    ensures MaxY(Vertices([[(499, 1), (501, 1)]])) == Some(1)
  {
    var path := [(499, 1), (501, 1)];
    var paths := [path];
    assert paths[..0] == [];
    LineStep((499, 1), (501, 1));
    LineStep((500, 1), (501, 1));
    assert Line((499, 1), (501, 1)) == [(500, 1), (501, 1)];
    assert path[..1] == [(499, 1)];
    assert PathRock(path) == {(499, 1)} + Elems([(500, 1), (501, 1)]);
    assert Vertices(paths) == path;
  }

  /** In the cave built from that input the first grain comes to rest on the
      generator, and by `SourceBlockedRepeats` so does every later one. */
  lemma BlockedExample(c: Cave)
    requires !c.floored && c.maxWallY == 1
    ensures c.Fall(Rocks({(499, 1), (500, 1), (501, 1)})[Generator := SandSource], Generator) == Some(Generator)
  {
    var stored := Rocks({(499, 1), (500, 1), (501, 1)})[Generator := SandSource];
    var b := Below(Generator);
    assert c.Get(stored, b[0]) == Rock && c.Get(stored, b[1]) == Rock && c.Get(stored, b[2]) == Rock;
    assert c.FirstEmpty(stored, b) == None by {
      assert b[1..][1..][1..] == [];
    }
  }

  /** The drawn text splits back into its rows: one line per row from 0 to
      the lowest row drawn. */
  lemma PictureLines(c: Cave, stored: map<Point, Cell>, minx: int, maxx: int)
    requires c.MaxRow() >= 0 && minx <= maxx
    ensures Lines(Join(c.Picture(stored, minx, maxx), "\n")) == c.Picture(stored, minx, maxx)
  {
    var pic := c.Picture(stored, minx, maxx);
    forall y | 0 <= y < |pic| ensures '\n' !in pic[y] {
      forall i | 0 <= i < |pic[y]| ensures pic[y][i] != '\n' {
      }
    }
    LinesOfJoin(pic);
  }
}
