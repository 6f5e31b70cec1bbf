/** Day 18: a droplet of lava scanned as unit cubes on a 3-D grid. Part one
    counts the cube faces not covered by another cube; part two counts only
    the faces that water or steam from outside the droplet can reach. */
module Day18 {
  import opened Wrappers
  import opened Text
  import opened Arith

  datatype Point = Point(x: int, y: int, z: int)

  /** Face neighbours: one unit apart along exactly one axis. */
  predicate Touching(p: Point, q: Point) {
    Abs(p.x - q.x) + Abs(p.y - q.y) + Abs(p.z - q.z) == 1
  }

  /** `adjacent_points`: the six face neighbours, in the order -x, +x, -y,
      +y, -z, +z. They are exactly the points touching `p`, all different. */
  function Adjacent(p: Point): (r: seq<Point>)
    ensures |r| == 6
    ensures forall q :: q in r <==> Touching(p, q)
    ensures forall i, j :: 0 <= i < j < |r| ==> r[i] != r[j]
  {
    [Point(p.x - 1, p.y, p.z), Point(p.x + 1, p.y, p.z),
     Point(p.x, p.y - 1, p.z), Point(p.x, p.y + 1, p.z),
     Point(p.x, p.y, p.z - 1), Point(p.x, p.y, p.z + 1)]
  }

  // Parsing

  /** One line of the scan: the trimmed line split on ',', its first three
      pieces parsed as integers (further pieces are ignored; fewer than
      three, or a piece that is not an integer, is a panic). */
  function ParseCube(line: string): (r: Option<Point>)
    ensures r.Some? ==> |Split(Trim(line), ",")| >= 3
  {
    var parts := Split(Trim(line), ",");
    if |parts| < 3 then None
    else
      match (ParseInt(parts[0]), ParseInt(parts[1]), ParseInt(parts[2]))
      case (Some(x), Some(y), Some(z)) => Some(Point(x, y, z))
      case _ => None
  }

  /** A cube written as the puzzle writes it. */
  function CubeText(p: Point): string {
    IntToString(p.x) + "," + IntToString(p.y) + "," + IntToString(p.z)
  }

  /** Three pieces free of commas, joined with commas, split back apart. */
  lemma SplitThree(x: string, y: string, z: string)
    requires ',' !in x && ',' !in y && ',' !in z
    ensures Split(x + "," + y + "," + z, ",") == [x, y, z]
  {
    assert x + "," + y + "," + z == x + "," + (y + "," + z);
    SplitAfter(x, ",", y + "," + z);
    SplitAfter(y, ",", z);
    FindNone(z, ",");
  }

  /** A written cube is its own trim. */
  lemma CubeTextTrimmed(p: Point)
    ensures Trim(CubeText(p)) == CubeText(p)
  {
    var x, z := IntToString(p.x), IntToString(p.z);
    var s := CubeText(p);
    IntToStringIsToken(p.x);
    IntToStringIsToken(p.z);
    assert s[0] == x[0];
    assert s[|s| - 1] == z[|z| - 1];
    TrimUnchanged(s);
  }

  /** A written cube parses back to itself. */
  lemma CubeRoundTrip(p: Point)
    ensures ParseCube(CubeText(p)) == Some(p)
  {
    CubeTextTrimmed(p);
    IntToStringAvoids(p.x, ',');
    IntToStringAvoids(p.y, ',');
    IntToStringAvoids(p.z, ',');
    SplitThree(IntToString(p.x), IntToString(p.y), IntToString(p.z));
    ParseIntToString(p.x);
    ParseIntToString(p.y);
    ParseIntToString(p.z);
  }

  /** Every line parsed as a cube, or `None` if any is malformed. */
  function ParseCubes(lines: seq<string>): (r: Option<seq<Point>>)
    ensures r.Some? ==> |r.value| == |lines|
    ensures r.Some? ==> forall k :: 0 <= k < |lines| ==> ParseCube(lines[k]) == Some(r.value[k])
    ensures r.None? ==> exists k :: 0 <= k < |lines| && ParseCube(lines[k]).None?
  {
    Collect(seq(|lines|, k requires 0 <= k < |lines| => ParseCube(lines[k])))
  }

  /** The set of cubes of the scan, one per line, or `None` when a line does
      not parse. Both parts read the input this way. */
  function ScanCubes(input: string): (r: Option<set<Point>>)
    ensures r.None? ==> exists k :: 0 <= k < |Lines(input)| && ParseCube(Lines(input)[k]).None?
    ensures r.Some? ==> forall p :: p in r.value <==>
      exists k :: 0 <= k < |Lines(input)| && ParseCube(Lines(input)[k]) == Some(p)
  {
    match ParseCubes(Lines(input))
    case None => None
    case Some(ps) => Some(set k | 0 <= k < |ps| :: ps[k])
  }

  // Sums over sets of cubes

  /** The sum of `f` over the points of `s`, in any order. */
  ghost function SumOver(s: set<Point>, f: Point -> nat): nat
    decreases |s|
  {
    if s == {} then 0
    else
      var p :| p in s;
      f(p) + SumOver(s - {p}, f)
  }

  /** The sum does not depend on which point is taken first. */
  lemma {:induction false} SumOverRemove(s: set<Point>, f: Point -> nat, p: Point)
    requires p in s
    ensures SumOver(s, f) == f(p) + SumOver(s - {p}, f)
    decreases |s|
  {
    var q :| q in s && SumOver(s, f) == f(q) + SumOver(s - {q}, f);
    if q != p {
      SumOverRemove(s - {q}, f, p);
      SumOverRemove(s - {p}, f, q);
      assert s - {q} - {p} == s - {p} - {q};
    }
  }

  /** A pointwise smaller summand gives a smaller sum. */
  lemma {:induction false} SumOverMono(s: set<Point>, f: Point -> nat, g: Point -> nat)
    requires forall p :: p in s ==> f(p) <= g(p)
    ensures SumOver(s, f) <= SumOver(s, g)
    decreases |s|
  {
    if s != {} {
      var p :| p in s && SumOver(s, f) == f(p) + SumOver(s - {p}, f);
      SumOverRemove(s, g, p);
      SumOverMono(s - {p}, f, g);
    }
  }

  /** A summand of at most six (faces) gives a sum of at most six per point. */
  lemma {:induction false} SumOverBound(s: set<Point>, f: Point -> nat)
    requires forall p :: p in s ==> f(p) <= 6
    ensures SumOver(s, f) <= 6 * |s|
    decreases |s|
  {
    if s != {} {
      var p :| p in s && SumOver(s, f) == f(p) + SumOver(s - {p}, f);
      SumOverBound(s - {p}, f);
    }
  }

  // Part one: exposed faces

  /** How many of the first `n` neighbours of `p` are not cubes. */
  function OpenFaces(p: Point, cubes: set<Point>, n: nat): (r: nat)
    requires n <= 6
    ensures r <= n
  {
    if n == 0 then 0
    else OpenFaces(p, cubes, n - 1) + (if Adjacent(p)[n - 1] in cubes then 0 else 1)
  }

  /** The open faces of each cube. */
  ghost function Open(cubes: set<Point>): Point -> nat {
    p => OpenFaces(p, cubes, 6)
  }

  /** The surface area: every (cube, neighbour) pair whose neighbour is not
      a cube. */
  ghost function SurfaceArea(cubes: set<Point>): nat {
    SumOver(cubes, Open(cubes))
  }

  /** A cube has six faces, so the area is at most six per cube. */
  lemma SurfaceBound(cubes: set<Point>)
    ensures SurfaceArea(cubes) <= 6 * |cubes|
  {
    SumOverBound(cubes, Open(cubes));
  }

  /** A lone cube shows all six faces. */
  lemma LoneCube(p: Point)
    ensures SurfaceArea({p}) == 6
  {
    var cubes := {p};
    SumOverRemove(cubes, Open(cubes), p);
    assert cubes - {p} == {};
    assert OpenFaces(p, cubes, 1) == 1;
    assert OpenFaces(p, cubes, 2) == 2;
    assert OpenFaces(p, cubes, 3) == 3;
    assert OpenFaces(p, cubes, 4) == 4;
    assert OpenFaces(p, cubes, 5) == 5;
  }

  /** Two cubes side by side show ten faces: the shared face is covered on
      both. */
  lemma TwoCubes()
    ensures SurfaceArea({Point(1, 1, 1), Point(2, 1, 1)}) == 10
  {
    var a, b := Point(1, 1, 1), Point(2, 1, 1);
    var cubes := {a, b};
    SumOverRemove(cubes, Open(cubes), a);
    assert cubes - {a} == {b};
    SumOverRemove({b}, Open(cubes), b);
    assert {b} - {b} == {};
    assert OpenFaces(a, cubes, 2) == 1;
    assert OpenFaces(a, cubes, 4) == 3;
    assert OpenFaces(a, cubes, 6) == 5;
    assert OpenFaces(b, cubes, 1) == 0;
    assert OpenFaces(b, cubes, 3) == 2;
    assert OpenFaces(b, cubes, 5) == 4;
  }

  /** The faces of one cube, counted neighbour by neighbour. */
  method CountOpen(p: Point, cubes: set<Point>) returns (sides: nat)
    ensures sides == OpenFaces(p, cubes, 6)
  {
    sides := 0;
    var adjacent := Adjacent(p);
    for i := 0 to 6
      invariant sides == OpenFaces(p, cubes, i)
    {
      if adjacent[i] !in cubes {
        sides := sides + 1;
      }
    }
  }

  /** The loop of `p1::solve`: every cube, and each of its neighbours that is
      not a cube, adds one side. */
  method CountSides(cubes: set<Point>) returns (sides: nat)
    ensures sides == SurfaceArea(cubes)
  {
    sides := 0;
    var todo := cubes;
    while todo != {}
      invariant todo <= cubes
      invariant sides + SumOver(todo, Open(cubes)) == SurfaceArea(cubes)
      decreases |todo|
    {
      var p :| p in todo;
      SumOverRemove(todo, Open(cubes), p);
      var open := CountOpen(p, cubes);
      sides := sides + open;
      todo := todo - {p};
    }
  }

  /** `p1::solve`: the surface area of the scanned cubes; a line that does not
      parse is a panic, `None`. */
  method SolveP1(input: string) returns (r: Option<nat>)
    ensures r.None? <==> ScanCubes(input).None?
    ensures r.Some? ==> r.value == SurfaceArea(ScanCubes(input).value)
    ensures r.Some? ==> r.value <= 6 * |ScanCubes(input).value|
  {
    match ScanCubes(input)
    case None =>
      return None;
    case Some(cubes) =>
      var sides := CountSides(cubes);
      SurfaceBound(cubes);
      return Some(sides);
  }

  // Bounding box

  /** `p` lies in the box with corners `lo` and `hi`. */
  predicate Inside(p: Point, lo: Point, hi: Point) {
    lo.x <= p.x <= hi.x && lo.y <= p.y <= hi.y && lo.z <= p.z <= hi.z
  }

  /** `lo` is the componentwise minimum of `s`: below every point on each
      axis, and attained on each axis. */
  ghost predicate IsLow(lo: Point, s: set<Point>) {
    && (forall p :: p in s ==> lo.x <= p.x && lo.y <= p.y && lo.z <= p.z)
    && (exists p :: p in s && p.x == lo.x)
    && (exists p :: p in s && p.y == lo.y)
    && (exists p :: p in s && p.z == lo.z)
  }

  /** `hi` is the componentwise maximum of `s`. */
  ghost predicate IsHigh(hi: Point, s: set<Point>) {
    && (forall p :: p in s ==> p.x <= hi.x && p.y <= hi.y && p.z <= hi.z)
    && (exists p :: p in s && p.x == hi.x)
    && (exists p :: p in s && p.y == hi.y)
    && (exists p :: p in s && p.z == hi.z)
  }

  /** The closure given to the first `reduce`. */
  function Meet(l: Point, r: Point): Point {
    Point(Min(l.x, r.x), Min(l.y, r.y), Min(l.z, r.z))
  }

  /** The closure given to the second `reduce`. */
  function Join3(l: Point, r: Point): Point {
    Point(Max(l.x, r.x), Max(l.y, r.y), Max(l.z, r.z))
  }

  /** Folding one more point into a componentwise minimum. */
  lemma MeetStep(lo: Point, s: set<Point>, p: Point)
    requires IsLow(lo, s)
    ensures IsLow(Meet(lo, p), s + {p})
  {
  }

  /** Folding one more point into a componentwise maximum. */
  lemma JoinStep(hi: Point, s: set<Point>, p: Point)
    requires IsHigh(hi, s)
    ensures IsHigh(Join3(hi, p), s + {p})
  {
  }

  /** The componentwise minimum of a non-empty set, and there is only one. */
  ghost function Low(s: set<Point>): (r: Point)
    requires s != {}
    ensures IsLow(r, s)
    ensures forall lo :: IsLow(lo, s) ==> lo == r
    decreases |s|
  {
    var p :| p in s;
    if s == {p} then p
    else
      var rest := Low(s - {p});
      MeetStep(rest, s - {p}, p);
      assert s - {p} + {p} == s;
      Meet(rest, p)
  }

  /** The componentwise maximum of a non-empty set, and there is only one. */
  ghost function High(s: set<Point>): (r: Point)
    requires s != {}
    ensures IsHigh(r, s)
    ensures forall hi :: IsHigh(hi, s) ==> hi == r
    decreases |s|
  {
    var p :| p in s;
    if s == {p} then p
    else
      var rest := High(s - {p});
      JoinStep(rest, s - {p}, p);
      assert s - {p} + {p} == s;
      Join3(rest, p)
  }

  /** The first `reduce` of `p2::solve`: the lower corner of the box around
      the cubes; an empty scan makes its `unwrap` panic. */
  method LowerCorner(cubes: set<Point>) returns (r: Option<Point>)
    ensures r.None? <==> cubes == {}
    ensures r.Some? ==> IsLow(r.value, cubes) && r.value == Low(cubes)
  {
    if cubes == {} {
      return None;
    }
    var first :| first in cubes;
    var acc := first;
    var done := {first};
    while done != cubes
      invariant done <= cubes && done != {}
      invariant IsLow(acc, done)
      decreases |cubes - done|
    {
      var p :| p in cubes - done;
      MeetStep(acc, done, p);
      acc := Meet(acc, p);
      done := done + {p};
    }
    return Some(acc);
  }

  /** The second `reduce` of `p2::solve`: the upper corner of the box. */
  method UpperCorner(cubes: set<Point>) returns (r: Option<Point>)
    ensures r.None? <==> cubes == {}
    ensures r.Some? ==> IsHigh(r.value, cubes) && r.value == High(cubes)
  {
    if cubes == {} {
      return None;
    }
    var first :| first in cubes;
    var acc := first;
    var done := {first};
    while done != cubes
      invariant done <= cubes && done != {}
      invariant IsHigh(acc, done)
      decreases |cubes - done|
    {
      var p :| p in cubes - done;
      JoinStep(acc, done, p);
      acc := Join3(acc, p);
      done := done + {p};
    }
    return Some(acc);
  }

  // Walks through the air

  /** A walk of face steps through points that are not lava. */
  ghost predicate Walk(w: seq<Point>, lava: set<Point>) {
    && |w| >= 1
    && (forall i :: 0 <= i < |w| ==> w[i] !in lava)
    && (forall i :: 0 <= i < |w| - 1 ==> Touching(w[i], w[i + 1]))
  }

  /** `q` can be reached from `p` through the air. */
  ghost predicate Reaches(p: Point, q: Point, lava: set<Point>) {
    exists w :: Walk(w, lava) && w[0] == p && w[|w| - 1] == q
  }

  /** Air at `p` is connected to a point outside the box: it is outside air,
      not a pocket enclosed by the droplet. */
  ghost predicate Escapes(p: Point, lava: set<Point>, lo: Point, hi: Point) {
    exists w :: Walk(w, lava) && w[0] == p && !Inside(w[|w| - 1], lo, hi)
  }

  /** A walk can be extended by one more face step into the air. */
  lemma ReachesStep(start: Point, p: Point, q: Point, lava: set<Point>)
    requires Reaches(start, p, lava) && Touching(p, q) && q !in lava
    ensures Reaches(start, q, lava)
  {
    var w :| Walk(w, lava) && w[0] == start && w[|w| - 1] == p;
    var w' := w + [q];
    assert w'[|w'| - 1] == q;
    assert Walk(w', lava);
  }

  /** A walk read backwards is a walk. */
  lemma WalkBack(w: seq<Point>, lava: set<Point>) returns (v: seq<Point>)
    requires Walk(w, lava)
    ensures Walk(v, lava) && |v| == |w| && v[0] == w[|w| - 1] && v[|v| - 1] == w[0]
  {
    v := seq(|w|, i requires 0 <= i < |w| => w[|w| - 1 - i]);
    forall i | 0 <= i < |v| - 1
      ensures Touching(v[i], v[i + 1])
    {
      assert v[i] == w[|w| - 1 - i] && v[i + 1] == w[|w| - 2 - i];
      assert Touching(w[|w| - 2 - i], w[|w| - 1 - i]);
    }
  }

  /** Air connected to outside air is outside air. */
  lemma EscapesVia(start: Point, p: Point, lava: set<Point>, lo: Point, hi: Point)
    requires Reaches(start, p, lava) && Escapes(start, lava, lo, hi)
    ensures Escapes(p, lava, lo, hi)
  {
    var w :| Walk(w, lava) && w[0] == start && w[|w| - 1] == p;
    var out :| Walk(out, lava) && out[0] == start && !Inside(out[|out| - 1], lo, hi);
    var back := WalkBack(w, lava);
    var v := back + out[1..];
    assert v[0] == p && v[|v| - 1] == out[|out| - 1];
    forall i | 0 <= i < |v| - 1
      ensures Touching(v[i], v[i + 1])
    {
      if i + 1 < |back| {
        assert v[i] == back[i] && v[i + 1] == back[i + 1];
      } else if i + 1 == |back| {
        assert v[i] == back[i] && v[i + 1] == out[1];
      } else {
        assert v[i] == out[i - |back| + 1] && v[i + 1] == out[i - |back| + 2];
      }
    }
    assert Walk(v, lava);
  }

  /** Air that cannot leave a region closed under face steps stays in it. */
  lemma {:induction false} WalkStays(w: seq<Point>, lava: set<Point>, region: set<Point>)
    requires Walk(w, lava) && w[0] in region
    requires forall e, q :: e in region && q !in lava && Touching(e, q) ==> q in region
    ensures forall i :: 0 <= i < |w| ==> w[i] in region
    decreases |w|
  {
    if |w| > 1 {
      var init := w[..|w| - 1];
      assert Walk(init, lava);
      WalkStays(init, lava, region);
      assert w[|w| - 2] == init[|init| - 1];
      assert Touching(w[|w| - 2], w[|w| - 1]);
    }
  }

  /** The lattice points of the box, finitely many. */
  function BoxPoints(lo: Point, hi: Point): (r: set<Point>)
    ensures forall p :: p in r <==> Inside(p, lo, hi)
  {
    set x, y, z | lo.x <= x <= hi.x && lo.y <= y <= hi.y && lo.z <= z <= hi.z :: Point(x, y, z)
  }

  // Part two: the flood fill

  /** The state of the flood from `start`: every point queued or explored is
      air reachable from `start`, no point is both, explored points lie in
      the box, and every air neighbour of an explored point is queued or
      explored. */
  ghost predicate FloodInv(start: Point, lava: set<Point>, lo: Point, hi: Point,
                           todo: set<Point>, explored: set<Point>)
  {
    && start in todo + explored
    && todo !! explored
    && (forall q :: q in todo + explored ==> q !in lava && Reaches(start, q, lava))
    && (forall e :: e in explored ==> Inside(e, lo, hi))
    && (forall e, q :: e in explored && q !in lava && Touching(e, q) ==> q in todo + explored)
  }

  /** Exploring `p` and queueing its unexplored air neighbours keeps the
      flood's invariant. */
  lemma FloodStep(start: Point, lava: set<Point>, lo: Point, hi: Point,
                  todo: set<Point>, explored: set<Point>, p: Point)
    requires FloodInv(start, lava, lo, hi, todo, explored)
    requires p in todo && Inside(p, lo, hi)
    ensures var explored' := explored + {p};
      FloodInv(start, lava, lo, hi,
               todo - {p} + (set q | q in Adjacent(p) && q !in explored' && q !in lava), explored')
  {
    var explored' := explored + {p};
    var added := set q | q in Adjacent(p) && q !in explored' && q !in lava;
    var todo' := todo - {p} + added;
    forall q | q in added
      ensures Reaches(start, q, lava)
    {
      ReachesStep(start, p, q, lava);
    }
    forall e, q | e in explored' && q !in lava && Touching(e, q)
      ensures q in todo' + explored'
    {
      if e == p {
        assert q in Adjacent(p);
      }
    }
  }

  /** Exploring one more point of the box leaves fewer unexplored ones. */
  lemma BoxShrinks(lo: Point, hi: Point, explored: set<Point>, p: Point)
    requires Inside(p, lo, hi) && p !in explored
    ensures |BoxPoints(lo, hi) - (explored + {p})| < |BoxPoints(lo, hi) - explored|
  {
    assert BoxPoints(lo, hi) - (explored + {p}) == BoxPoints(lo, hi) - explored - {p};
  }

  /** A queued point outside the box shows that `start` escapes. */
  lemma FloodOut(start: Point, lava: set<Point>, lo: Point, hi: Point,
                 todo: set<Point>, explored: set<Point>, p: Point)
    requires FloodInv(start, lava, lo, hi, todo, explored)
    requires p in todo && !Inside(p, lo, hi)
    ensures Escapes(start, lava, lo, hi)
  {
    var w :| Walk(w, lava) && w[0] == start && w[|w| - 1] == p;
  }

  /** A queued point known not to escape shows that `start` does not. */
  lemma FloodHit(start: Point, lava: set<Point>, lo: Point, hi: Point,
                 todo: set<Point>, explored: set<Point>, p: Point)
    requires FloodInv(start, lava, lo, hi, todo, explored)
    requires p in todo && !Escapes(p, lava, lo, hi)
    ensures !Escapes(start, lava, lo, hi)
  {
    if Escapes(start, lava, lo, hi) {
      EscapesVia(start, p, lava, lo, hi);
    }
  }

  /** When the queue runs dry the explored region is closed and inside the
      box, so `start` cannot escape. */
  lemma FloodClosed(start: Point, lava: set<Point>, lo: Point, hi: Point, explored: set<Point>)
    requires FloodInv(start, lava, lo, hi, {}, explored)
    ensures !Escapes(start, lava, lo, hi)
  {
    if Escapes(start, lava, lo, hi) {
      var w :| Walk(w, lava) && w[0] == start && !Inside(w[|w| - 1], lo, hi);
      WalkStays(w, lava, explored);
      assert false;
    }
  }

  /** `p2::is_interior`: a flood fill from an air point `start`. It answers
      false as soon as it reaches a point outside the box, and true when the
      queue runs dry or it reaches a point already known to be interior. The
      answer is exact: true exactly when `start` is not connected to outside
      air. The flood only ever holds air, and explores each point once. */
  method IsInterior(start: Point, lava: set<Point>, lo: Point, hi: Point, interior: set<Point>)
    returns (r: bool)
    requires start !in lava
    requires forall q :: q in interior ==> q !in lava && !Escapes(q, lava, lo, hi)
    ensures r <==> !Escapes(start, lava, lo, hi)
  {
    var todo := {start};
    var explored: set<Point> := {};
    assert Walk([start], lava);
    while true
      invariant FloodInv(start, lava, lo, hi, todo, explored)
      decreases |BoxPoints(lo, hi) - explored|
    {
      if todo == {} {
        FloodClosed(start, lava, lo, hi, explored);
        return true;
      }
      var p :| p in todo;
      if p in interior {
        FloodHit(start, lava, lo, hi, todo, explored, p);
        return true;
      }
      if p.x < lo.x || p.y < lo.y || p.z < lo.z {
        FloodOut(start, lava, lo, hi, todo, explored, p);
        return false;
      }
      if p.x > hi.x || p.y > hi.y || p.z > hi.z {
        FloodOut(start, lava, lo, hi, todo, explored, p);
        return false;
      }
      FloodStep(start, lava, lo, hi, todo, explored, p);
      BoxShrinks(lo, hi, explored, p);
      explored := explored + {p};
      todo := todo - {p} + (set q | q in Adjacent(p) && q !in explored && q !in lava);
    }
  }

  /** How many of the first `n` neighbours of `p` are outside air. */
  ghost function OuterFaces(p: Point, lava: set<Point>, lo: Point, hi: Point, n: nat): (r: nat)
    requires n <= 6
    ensures r <= OpenFaces(p, lava, n)
  {
    if n == 0 then 0
    else
      var q := Adjacent(p)[n - 1];
      OuterFaces(p, lava, lo, hi, n - 1) + (if q !in lava && Escapes(q, lava, lo, hi) then 1 else 0)
  }

  /** When every neighbour is outside air, every face counts. */
  lemma {:induction false} OuterFacesAll(p: Point, lava: set<Point>, lo: Point, hi: Point, n: nat)
    requires n <= 6
    requires forall q :: q in Adjacent(p) ==> q !in lava && Escapes(q, lava, lo, hi)
    ensures OuterFaces(p, lava, lo, hi, n) == n
  {
    if n > 0 {
      OuterFacesAll(p, lava, lo, hi, n - 1);
      assert Adjacent(p)[n - 1] in Adjacent(p);
    }
  }

  /** The outside faces of each cube. */
  ghost function Outer(lava: set<Point>, lo: Point, hi: Point): Point -> nat {
    p => OuterFaces(p, lava, lo, hi, 6)
  }

  /** The exterior surface area: every (cube, neighbour) pair whose neighbour
      is outside air, the box being the one around the cubes. */
  ghost function ExteriorArea(lava: set<Point>): nat
    requires lava != {}
  {
    SumOver(lava, Outer(lava, Low(lava), High(lava)))
  }

  /** Faces towards outside air are a part of all the open faces. */
  lemma ExteriorBelowSurface(lava: set<Point>)
    requires lava != {}
    ensures ExteriorArea(lava) <= SurfaceArea(lava)
  {
    SumOverMono(lava, Outer(lava, Low(lava), High(lava)), Open(lava));
  }

  /** A lone cube has no pockets: all six faces are outside. */
  lemma LoneCubeExterior(p: Point)
    ensures ExteriorArea({p}) == 6
  {
    var lava := {p};
    assert IsLow(p, lava) && IsHigh(p, lava);
    var f := Outer(lava, p, p);
    SumOverRemove(lava, f, p);
    assert lava - {p} == {};
    forall q | q in Adjacent(p)
      ensures q !in lava && Escapes(q, lava, p, p)
    {
      assert Walk([q], lava);
    }
    OuterFacesAll(p, lava, p, p, 6);
  }

  /** The faces of one cube that face outside air, as `p2::solve` checks them
      neighbour by neighbour; air found to be a pocket joins `interior`. */
  method CountOuter(p: Point, lava: set<Point>, lo: Point, hi: Point, interior: set<Point>)
    returns (sides: nat, interior': set<Point>)
    requires forall q :: q in interior ==> q !in lava && !Escapes(q, lava, lo, hi)
    ensures sides == OuterFaces(p, lava, lo, hi, 6)
    ensures interior <= interior'
    ensures forall q :: q in interior' ==> q !in lava && !Escapes(q, lava, lo, hi)
  {
    sides := 0;
    interior' := interior;
    var adjacent := Adjacent(p);
    for i := 0 to 6
      invariant sides == OuterFaces(p, lava, lo, hi, i)
      invariant interior <= interior'
      invariant forall q :: q in interior' ==> q !in lava && !Escapes(q, lava, lo, hi)
    {
      var q := adjacent[i];
      if q in lava || q in interior' {
        continue;
      }
      var enclosed := IsInterior(q, lava, lo, hi, interior');
      if enclosed {
        interior' := interior' + {q};
        continue;
      }
      sides := sides + 1;
    }
  }

  /** The loop of `p2::solve` over every cube. */
  method CountExterior(lava: set<Point>, lo: Point, hi: Point) returns (sides: nat)
    ensures sides == SumOver(lava, Outer(lava, lo, hi))
  {
    sides := 0;
    var interior: set<Point> := {};
    var todo := lava;
    while todo != {}
      invariant todo <= lava
      invariant sides + SumOver(todo, Outer(lava, lo, hi)) == SumOver(lava, Outer(lava, lo, hi))
      invariant forall q :: q in interior ==> q !in lava && !Escapes(q, lava, lo, hi)
      decreases |todo|
    {
      var p :| p in todo;
      SumOverRemove(todo, Outer(lava, lo, hi), p);
      var outer;
      outer, interior := CountOuter(p, lava, lo, hi, interior);
      sides := sides + outer;
      todo := todo - {p};
    }
  }

  /** `p2::solve`: the exterior surface area of the scanned cubes. A line
      that does not parse, or an empty scan (the corners' `unwrap`), is a
      panic, `None`. */
  method SolveP2(input: string) returns (r: Option<nat>)
    ensures r.None? <==> ScanCubes(input).None? || ScanCubes(input) == Some({})
    ensures r.Some? ==> r.value == ExteriorArea(ScanCubes(input).value)
    ensures r.Some? ==> r.value <= SurfaceArea(ScanCubes(input).value)
  {
    match ScanCubes(input)
    case None =>
      return None;
    case Some(lava) =>
      var lower := LowerCorner(lava);
      var upper := UpperCorner(lava);
      if lower.None? || upper.None? {
        return None;
      }
      var sides := CountExterior(lava, lower.value, upper.value);
      ExteriorBelowSurface(lava);
      return Some(sides);
  }
}
