/** Hill climbing: a grid of letter heights, a breadth-first search for the
    fewest steps from a start cell to the best-signal cell, moving to a
    left, right, up or down neighbour that is at most one higher. */
module Day12 {
  import opened Wrappers
  import opened Text
  import opened Grids

  /** `Map`: heights row by row, the grid's size, and the cells marked `S`
      and `E`. */
  datatype Map = Map(heights: seq<nat>, width: nat, height: nat, start: nat, end: nat)

  /** A grid the search can walk: at least one column and one height per
      cell. */
  predicate Valid(m: Map) {
    m.width > 0 && |m.heights| == Area(m.width, m.height)
  }

  /** The candidate cells of `shortest_path_from`, in its order: left, right,
      up, down, each only when it is inside the grid. */
  function Neighbours(m: Map, idx: nat): (r: seq<nat>)
    requires Valid(m) && idx < |m.heights|
    ensures forall k :: 0 <= k < |r| ==> r[k] < |m.heights|
  {
    var w := m.width;
    RowColIdx(w, m.height, idx);
    var col, row := Col(w, idx), Row(w, idx);
    NeighbourBounds(w, m.height, col, row);
    (if col > 0 then [idx - 1] else [])
    + (if col < w - 1 then [idx + 1] else [])
    + (if row > 0 then [Idx(w, col, row - 1)] else [])
    + (if row < m.height - 1 then [Idx(w, col, row + 1)] else [])
  }

  lemma NeighbourBounds(w: nat, h: nat, col: nat, row: nat)
    requires col < w && row < h
    ensures col + 1 < w ==> Idx(w, col + 1, row) < Area(w, h)
    ensures row > 0 ==> Idx(w, col, row - 1) < Area(w, h)
    ensures row + 1 < h ==> Idx(w, col, row + 1) < Area(w, h)
  {
    if col + 1 < w { IdxBound(w, h, col + 1, row); }
    if row > 0 { IdxBound(w, h, col, row - 1); }
    if row + 1 < h { IdxBound(w, h, col, row + 1); }
  }

  /** Two cells share a row and sit in neighbouring columns, or share a
      column and sit in neighbouring rows. */
  predicate Adjacent(w: nat, a: nat, b: nat)
    requires w > 0
  {
    (Row(w, a) == Row(w, b) && (Col(w, a) + 1 == Col(w, b) || Col(w, b) + 1 == Col(w, a)))
    || (Col(w, a) == Col(w, b) && (Row(w, a) + 1 == Row(w, b) || Row(w, b) + 1 == Row(w, a)))
  }

  /** The candidates are exactly the in-grid cells adjacent to `a`. */
  lemma NeighboursAreAdjacent(m: Map, a: nat, b: nat)
    requires Valid(m) && a < |m.heights|
    ensures b in Neighbours(m, a) <==> b < |m.heights| && Adjacent(m.width, a, b)
  {
    var w := m.width;
    RowColIdx(w, m.height, a);
    var col, row := Col(w, a), Row(w, a);
    if b in Neighbours(m, a) {
      if col > 0 && b == a - 1 {
        assert b == Idx(w, col - 1, row);
        IdxRowCol(w, col - 1, row);
      } else if col < w - 1 && b == a + 1 {
        assert b == Idx(w, col + 1, row);
        IdxRowCol(w, col + 1, row);
      } else if row > 0 && b == Idx(w, col, row - 1) {
        IdxRowCol(w, col, row - 1);
      } else {
        IdxRowCol(w, col, row + 1);
      }
    }
    if b < |m.heights| && Adjacent(w, a, b) {
      RowColIdx(w, m.height, b);
      var bc, br := Col(w, b), Row(w, b);
      if br == row && bc + 1 == col {
        assert b == a - 1;
      } else if br == row && col + 1 == bc {
        assert b == a + 1;
      } else if bc == col && br + 1 == row {
        assert b == Idx(w, col, row - 1);
      } else {
        assert b == Idx(w, col, row + 1);
      }
    }
  }

  /** The height rule of the search: the next cell is at most one higher. */
  predicate Climb(m: Map, a: nat, b: nat)
    requires a < |m.heights| && b < |m.heights|
  {
    m.heights[b] <= m.heights[a] + 1
  }

  /** One move of the search. */
  predicate Step(m: Map, a: nat, b: nat) {
    Valid(m) && a < |m.heights| && b < |m.heights| && b in Neighbours(m, a) && Climb(m, a, b)
  }

  function Last(p: seq<nat>): nat
    requires |p| > 0
  {
    p[|p| - 1]
  }

  /** A walk from `src` made of allowed moves; it takes `|p| - 1` steps. */
  predicate IsPath(m: Map, src: nat, p: seq<nat>) {
    |p| >= 1 && p[0] == src
    && (forall i :: 0 <= i < |p| ==> p[i] < |m.heights|)
    && forall i :: 0 <= i < |p| - 1 ==> Step(m, p[i], p[i + 1])
  }

  /** `n` is the fewest steps from `src` to the end cell. */
  ghost predicate Shortest(m: Map, src: nat, n: nat) {
    (exists p :: IsPath(m, src, p) && Last(p) == m.end && |p| - 1 == n)
    && forall p :: IsPath(m, src, p) && Last(p) == m.end ==> n <= |p| - 1
  }

  /** No walk from `src` reaches the end cell. */
  ghost predicate Unreachable(m: Map, src: nat) {
    forall p :: IsPath(m, src, p) ==> Last(p) != m.end
  }

  // ------------------------------------------------ the search's invariants

  /** A cell that already has a step count. */
  ghost predicate Found(S: seq<Option<nat>>, c: nat) {
    c < |S| && S[c].Some?
  }

  /** Queued cells are found, distinct, in non-decreasing step order, with
      counts `lo` or `lo + 1`. */
  ghost predicate Band(S: seq<Option<nat>>, q: seq<nat>, lo: nat) {
    (forall i :: 0 <= i < |q| ==> Found(S, q[i]) && lo <= S[q[i]].value <= lo + 1)
    && forall i, j :: 0 <= i < j < |q| ==> q[i] != q[j] && S[q[i]].value <= S[q[j]].value
  }

  ghost predicate QueueOk(S: seq<Option<nat>>, q: seq<nat>) {
    q == [] || (Found(S, q[0]) && Band(S, q, S[q[0]].value))
  }

  /** Every allowed move out of `v` leads to a found cell. */
  ghost predicate Closed(m: Map, S: seq<Option<nat>>, v: nat) {
    forall u: nat :: Step(m, v, u) ==> Found(S, u)
  }

  /** Found cells that have left the queue (other than `except`) are closed. */
  ghost predicate AllClosed(m: Map, S: seq<Option<nat>>, q: seq<nat>, except: int) {
    forall v: nat :: Found(S, v) && v !in q && v != except ==> Closed(m, S, v)
  }

  /** No walk reaches a found cell in fewer steps than its count. */
  ghost predicate Bounded(m: Map, src: nat, S: seq<Option<nat>>) {
    forall p :: IsPath(m, src, p) && Found(S, Last(p)) ==> S[Last(p)].value <= |p| - 1
  }

  /** Every found cell has a walk of exactly its count: the discoverer's walk
      plus one move. */
  ghost predicate Witnessed(m: Map, src: nat, S: seq<Option<nat>>, paths: map<nat, seq<nat>>) {
    forall c: nat :: Found(S, c) ==>
      c in paths && IsPath(m, src, paths[c]) && Last(paths[c]) == c && |paths[c]| - 1 == S[c].value
  }

  /** The invariant of the `while let Some(idx) = to_visit.pop_front()`
      loop. */
  ghost predicate Inv(m: Map, src: nat, S: seq<Option<nat>>, q: seq<nat>, paths: map<nat, seq<nat>>) {
    Valid(m) && src < |m.heights| && |S| == |m.heights| && Found(S, src)
    && QueueOk(S, q) && AllClosed(m, S, q, -1)
    && Bounded(m, src, S) && Witnessed(m, src, S, paths)
    && (Found(S, m.end) ==> m.end in q)
  }

  /** Dropping the last cell of a longer walk leaves a walk, whose last cell
      moves to the dropped one. */
  lemma PathPrefix(m: Map, src: nat, p: seq<nat>)
    requires IsPath(m, src, p) && |p| > 1
    ensures IsPath(m, src, p[..|p| - 1]) && Step(m, Last(p[..|p| - 1]), Last(p))
  {
    var pre := p[..|p| - 1];
    assert forall i :: 0 <= i < |pre| ==> pre[i] == p[i];
    assert Step(m, p[|p| - 2], p[|p| - 1]);
  }

  /** A walk to a cell not yet found is longer than the count at the front
      of the queue; once the queue is empty, no such walk exists. */
  lemma {:induction false} FrontierBound(m: Map, src: nat, S: seq<Option<nat>>, q: seq<nat>,
                                          paths: map<nat, seq<nat>>, p: seq<nat>)
    requires Inv(m, src, S, q, paths)
    requires IsPath(m, src, p) && !Found(S, Last(p))
    ensures q != [] && |p| - 1 >= S[q[0]].value + 1
    decreases |p|
  {
    if |p| == 1 {
      assert false;
    }
    var pre := p[..|p| - 1];
    PathPrefix(m, src, p);
    var w := Last(pre);
    if !Found(S, w) {
      FrontierBound(m, src, S, q, paths, pre);
    } else if w !in q {
      assert false;
    } else {
      var i :| 0 <= i < |q| && q[i] == w;
      assert S[q[0]].value <= S[w].value;
    }
  }

  /** What holds while the candidates of `v`, popped with count `d`, are
      examined: `S0` is the step vector when `v` was popped, `k` the number
      of candidates examined so far. */
  ghost predicate Inner(m: Map, src: nat, S0: seq<Option<nat>>, v: nat, d: nat, k: nat,
                        S: seq<Option<nat>>, q: seq<nat>, paths: map<nat, seq<nat>>)
  {
    Frame(m, src, S0, v, d, S) && Fresh(S0, S, q, d)
    && Band(S, q, d) && v !in q
    && AllClosed(m, S, q, v) && Done(m, v, k, S)
    && Bounded(m, src, S) && Witnessed(m, src, S, paths)
    && EndQueued(m, S, q) && Ahead(m, src, S0, d)
  }

  /** Sizes, the popped cell, and counts found before the pop kept. */
  ghost predicate Frame(m: Map, src: nat, S0: seq<Option<nat>>, v: nat, d: nat, S: seq<Option<nat>>) {
    Valid(m) && src < |m.heights| && |S0| == |m.heights| && |S| == |S0|
    && v < |S0| && S0[v] == Some(d) && Found(S0, src)
    && forall c: nat :: Found(S0, c) ==> S[c] == S0[c]
  }

  /** Cells found since the pop have count `d + 1` and are queued. */
  ghost predicate Fresh(S0: seq<Option<nat>>, S: seq<Option<nat>>, q: seq<nat>, d: nat) {
    forall c: nat :: Found(S, c) && !Found(S0, c) ==> S[c] == Some(d + 1) && c in q
  }

  /** The first `k` candidates of `v` are found unless too high. */
  ghost predicate Done(m: Map, v: nat, k: nat, S: seq<Option<nat>>) {
    Valid(m) && v < |m.heights| && k <= |Neighbours(m, v)|
    && forall j :: 0 <= j < k && Climb(m, v, Neighbours(m, v)[j]) ==> Found(S, Neighbours(m, v)[j])
  }

  ghost predicate EndQueued(m: Map, S: seq<Option<nat>>, q: seq<nat>) {
    Found(S, m.end) ==> m.end in q
  }

  /** Walks to cells not found at the pop take more than `d` steps. */
  ghost predicate Ahead(m: Map, src: nat, S0: seq<Option<nat>>, d: nat) {
    forall p :: IsPath(m, src, p) && !Found(S0, Last(p)) ==> |p| - 1 >= d + 1
  }

  /** Popping the front `v` of the queue starts the candidate loop. */
  lemma InnerStart(m: Map, src: nat, S: seq<Option<nat>>, q: seq<nat>, paths: map<nat, seq<nat>>)
    requires Inv(m, src, S, q, paths) && q != [] && q[0] != m.end
    ensures Inner(m, src, S, q[0], S[q[0]].value, 0, S, q[1..], paths)
  {
    var v, d := q[0], S[q[0]].value;
    forall p | IsPath(m, src, p) && !Found(S, Last(p))
      ensures |p| - 1 >= d + 1
    {
      FrontierBound(m, src, S, q, paths, p);
    }
    assert forall i :: 0 <= i < |q[1..]| ==> q[1..][i] == q[i + 1];
    assert v !in q[1..];
    forall u | Found(S, u) && u !in q[1..] && u != v
      ensures Closed(m, S, u)
    {
      assert u !in q;
    }
  }

  lemma DiscoverBand(S: seq<Option<nat>>, q: seq<nat>, d: nat, c: nat)
    requires Band(S, q, d) && c < |S| && !Found(S, c)
    ensures Band(S[c := Some(d + 1)], q + [c], d)
  {
    var S', q' := S[c := Some(d + 1)], q + [c];
    assert forall i :: 0 <= i < |q| ==> q'[i] == q[i] && q[i] != c && S'[q[i]] == S[q[i]];
  }

  lemma DiscoverClosed(m: Map, S: seq<Option<nat>>, q: seq<nat>, v: nat, c: nat, d: nat)
    requires AllClosed(m, S, q, v) && c < |S|
    ensures AllClosed(m, S[c := Some(d + 1)], q + [c], v)
  {
    var S', q' := S[c := Some(d + 1)], q + [c];
    forall u: nat | Found(S', u) && u !in q' && u != v
      ensures Closed(m, S', u)
    {
      assert u != c && u !in q;
      assert Closed(m, S, u);
    }
  }

  lemma DiscoverBounded(m: Map, src: nat, S0: seq<Option<nat>>, S: seq<Option<nat>>, c: nat, d: nat)
    requires Bounded(m, src, S) && c < |S| && |S0| == |S| && !Found(S0, c)
    requires forall p :: IsPath(m, src, p) && !Found(S0, Last(p)) ==> |p| - 1 >= d + 1
    ensures Bounded(m, src, S[c := Some(d + 1)])
  {
    var S' := S[c := Some(d + 1)];
    forall p | IsPath(m, src, p) && Found(S', Last(p))
      ensures S'[Last(p)].value <= |p| - 1
    {
      if Last(p) != c {
        assert Found(S, Last(p));
      }
    }
  }

  lemma DiscoverWitnessed(m: Map, src: nat, S: seq<Option<nat>>, paths: map<nat, seq<nat>>,
                          v: nat, c: nat, d: nat)
    requires Witnessed(m, src, S, paths) && c < |S| && Found(S, v) && S[v] == Some(d)
    requires Step(m, v, c)
    ensures Witnessed(m, src, S[c := Some(d + 1)], paths[c := paths[v] + [c]])
  {
    var pv := paths[v];
    var pc := pv + [c];
    assert forall i :: 0 <= i < |pv| ==> pc[i] == pv[i];
    assert IsPath(m, src, pc);
  }

  /** The candidate `c` is new and not too high: it gets count `d + 1` and
      joins the back of the queue. */
  lemma Discover(m: Map, src: nat, S0: seq<Option<nat>>, v: nat, d: nat, k: nat,
                 S: seq<Option<nat>>, q: seq<nat>, paths: map<nat, seq<nat>>)
    requires Inner(m, src, S0, v, d, k, S, q, paths) && k < |Neighbours(m, v)|
    requires !Found(S, Neighbours(m, v)[k]) && Climb(m, v, Neighbours(m, v)[k])
    ensures var c := Neighbours(m, v)[k];
      Inner(m, src, S0, v, d, k + 1, S[c := Some(d + 1)], q + [c], paths[c := paths[v] + [c]])
  {
    var c := Neighbours(m, v)[k];
    assert Step(m, v, c);
    DiscoverBand(S, q, d, c);
    DiscoverClosed(m, S, q, v, c, d);
    DiscoverBounded(m, src, S0, S, c, d);
    DiscoverWitnessed(m, src, S, paths, v, c, d);
    DiscoverFrame(m, src, S0, v, d, k, S, q, c);
  }

  lemma DiscoverFrame(m: Map, src: nat, S0: seq<Option<nat>>, v: nat, d: nat, k: nat,
                      S: seq<Option<nat>>, q: seq<nat>, c: nat)
    requires Frame(m, src, S0, v, d, S) && Fresh(S0, S, q, d) && Done(m, v, k, S) && EndQueued(m, S, q)
    requires k < |Neighbours(m, v)| && c == Neighbours(m, v)[k] && !Found(S, c)
    ensures Frame(m, src, S0, v, d, S[c := Some(d + 1)])
    ensures Fresh(S0, S[c := Some(d + 1)], q + [c], d)
    ensures Done(m, v, k + 1, S[c := Some(d + 1)])
    ensures EndQueued(m, S[c := Some(d + 1)], q + [c])
  {
    var S', q' := S[c := Some(d + 1)], q + [c];
    assert forall x :: x in q ==> x in q';
  }

  /** The candidate is already found or too high: nothing changes. */
  lemma Skip(m: Map, src: nat, S0: seq<Option<nat>>, v: nat, d: nat, k: nat,
             S: seq<Option<nat>>, q: seq<nat>, paths: map<nat, seq<nat>>)
    requires Inner(m, src, S0, v, d, k, S, q, paths) && k < |Neighbours(m, v)|
    requires Found(S, Neighbours(m, v)[k]) || !Climb(m, v, Neighbours(m, v)[k])
    ensures Inner(m, src, S0, v, d, k + 1, S, q, paths)
  {
  }

  /** After the last candidate `v` is closed and the loop invariant holds
      again. */
  lemma InnerEnd(m: Map, src: nat, S0: seq<Option<nat>>, v: nat, d: nat,
                 S: seq<Option<nat>>, q: seq<nat>, paths: map<nat, seq<nat>>)
    requires Valid(m) && v < |m.heights|
    requires Inner(m, src, S0, v, d, |Neighbours(m, v)|, S, q, paths)
    ensures Inv(m, src, S, q, paths)
  {
    forall u | Step(m, v, u)
      ensures Found(S, u)
    {
      var j :| 0 <= j < |Neighbours(m, v)| && Neighbours(m, v)[j] == u;
    }
    assert Closed(m, S, v);
  }

  // ------------------------------------------------------------- the search

  /** `U` is the set of cells without a count; it shrinks as cells are
      found, which is why the search ends. */
  ghost predicate Unfound(S: seq<Option<nat>>, U: set<nat>) {
    forall c: nat :: c < |S| ==> (c in U <==> S[c].None?)
  }

  lemma UnfoundUpdate(S: seq<Option<nat>>, U: set<nat>, c: nat, x: nat)
    requires Unfound(S, U) && c < |S| && S[c].None?
    ensures Unfound(S[c := Some(x)], U - {c}) && U - {c} < U
  {
  }

  /** The `for c in candidates` loop: count and queue the new, climbable
      neighbours of `v`. */
  method Expand(m: Map, src: nat, steps: array<Option<nat>>, q: seq<nat>, v: nat, d: nat,
                ghost paths: map<nat, seq<nat>>, ghost undisc: set<nat>)
    returns (q': seq<nat>, ghost paths': map<nat, seq<nat>>, ghost undisc': set<nat>)
    requires Inner(m, src, steps[..], v, d, 0, steps[..], q, paths)
    requires Unfound(steps[..], undisc)
    modifies steps
    ensures Inner(m, src, old(steps[..]), v, d, |Neighbours(m, v)|, steps[..], q', paths')
    ensures Unfound(steps[..], undisc')
    ensures undisc' < undisc || (undisc' == undisc && q' == q)
  {
    ghost var S0 := steps[..];
    var candidates := Neighbours(m, v);
    q', paths', undisc' := q, paths, undisc;
    for k := 0 to |candidates|
      invariant Inner(m, src, S0, v, d, k, steps[..], q', paths')
      invariant Unfound(steps[..], undisc')
      invariant undisc' < undisc || (undisc' == undisc && q' == q)
    {
      var c := candidates[k];
      if steps[c].Some? || m.heights[c] > m.heights[v] + 1 {
        Skip(m, src, S0, v, d, k, steps[..], q', paths');
      } else {
        Discover(m, src, S0, v, d, k, steps[..], q', paths');
        UnfoundUpdate(steps[..], undisc', c, d + 1);
        steps[c] := Some(d + 1);
        q' := q' + [c];
        paths' := paths'[c := paths'[v] + [c]];
        undisc' := undisc' - {c};
      }
    }
  }

  /** Before the loop only `src` is found, with count 0, and it is queued. */
  lemma InvInit(m: Map, src: nat, S: seq<Option<nat>>)
    requires Valid(m) && src < |m.heights| && |S| == |m.heights|
    requires forall c :: 0 <= c < |S| ==> S[c] == if c == src then Some(0) else None
    ensures Inv(m, src, S, [src], map[src := [src]])
  {
    forall p | IsPath(m, src, p) && Found(S, Last(p))
      ensures S[Last(p)].value <= |p| - 1
    {
    }
  }

  /** Popping the end cell: its count is the fewest steps. */
  lemma InvFinished(m: Map, src: nat, S: seq<Option<nat>>, q: seq<nat>, paths: map<nat, seq<nat>>)
    requires Inv(m, src, S, q, paths) && q != [] && q[0] == m.end
    ensures Shortest(m, src, S[m.end].value)
  {
    assert IsPath(m, src, paths[m.end]);
  }

  /** An empty queue: the end cell was never found, and no walk reaches it. */
  lemma InvExhausted(m: Map, src: nat, S: seq<Option<nat>>, paths: map<nat, seq<nat>>)
    requires Inv(m, src, S, [], paths)
    ensures Unreachable(m, src)
  {
    forall p | IsPath(m, src, p)
      ensures Last(p) != m.end
    {
      if Last(p) == m.end {
        FrontierBound(m, src, S, [], paths, p);
      }
    }
  }

  /** `Map::shortest_path_from`: breadth-first search from `src`. A result
      is the fewest steps to the end cell; `None` means no walk reaches it. */
  method ShortestPathFrom(m: Map, src: nat) returns (r: Option<nat>)
    requires Valid(m) && src < |m.heights|
    ensures r.Some? ==> Shortest(m, src, r.value)
    ensures r.None? ==> Unreachable(m, src)
  {
    var steps := new Option<nat>[|m.heights|](_ => None);
    steps[src] := Some(0);
    var q := [src];
    ghost var paths: map<nat, seq<nat>> := map[src := [src]];
    ghost var undisc := set c | 0 <= c < steps.Length && steps[c].None?;
    InvInit(m, src, steps[..]);
    while q != []
      invariant Inv(m, src, steps[..], q, paths)
      invariant Unfound(steps[..], undisc)
      decreases undisc, |q|
    {
      var v := q[0];
      var d := steps[v].value;
      if v == m.end {
        InvFinished(m, src, steps[..], q, paths);
        return Some(d);
      }
      InnerStart(m, src, steps[..], q, paths);
      ghost var S0 := steps[..];
      q, paths, undisc := Expand(m, src, steps, q[1..], v, d, paths, undisc);
      InnerEnd(m, src, S0, v, d, steps[..], q, paths);
    }
    InvExhausted(m, src, steps[..], paths);
    return None;
  }

  // ------------------------------------------------------------------ parsing

  /** The heights read so far and the indices of the last `S` and `E`. */
  datatype Cells = Cells(heights: seq<nat>, start: nat, end: nat)

  /** The characters `from_str` accepts. */
  predicate Accepted(c: char) {
    c == '\n' || c == ' ' || c == 'S' || c == 'E' || 'a' <= c <= 'z'
  }

  /** `ascii_ord` of the height a cell letter stands for: `S` is an `a`,
      `E` a `z`. */
  function Height(c: char): nat {
    if c == 'S' then 'a' as nat else if c == 'E' then 'z' as nat else c as nat
  }

  /** One character of the `for c in s.chars()` loop; `None` is the
      `unexpected char` panic. */
  function Take(acc: Cells, c: char): Option<Cells> {
    if c == '\n' || c == ' ' then Some(acc)
    else if c == 'S' then Some(Cells(acc.heights + ['a' as nat], |acc.heights|, acc.end))
    else if c == 'E' then Some(Cells(acc.heights + ['z' as nat], acc.start, |acc.heights|))
    else if 'a' <= c <= 'z' then Some(acc.(heights := acc.heights + [c as nat]))
    else None
  }

  /** The loop's state after the characters of `s`. */
  function Scan(s: string): Option<Cells>
    decreases |s|
  {
    if s == [] then Some(Cells([], 0, 0))
    else
      match Scan(s[..|s| - 1])
      case None => None
      case Some(acc) => Take(acc, s[|s| - 1])
  }

  /** The cell letters of `s`: everything but line breaks and spaces. */
  function Kept(s: string): (r: string)
    ensures |r| <= |s|
    decreases |s|
  {
    if s == [] then []
    else Kept(s[..|s| - 1]) + (if s[|s| - 1] == '\n' || s[|s| - 1] == ' ' then [] else [s[|s| - 1]])
  }

  /** The index of the last `ch` in `k`. */
  function LastIndex(k: string, ch: char): (r: Option<nat>)
    ensures r.Some? ==> r.value < |k| && k[r.value] == ch && forall j :: r.value < j < |k| ==> k[j] != ch
    ensures r.None? ==> ch !in k
    decreases |k|
  {
    if k == [] then None
    else if k[|k| - 1] == ch then Some(|k| - 1)
    else
      var r := LastIndex(k[..|k| - 1], ch);
      assert k == k[..|k| - 1] + [k[|k| - 1]];
      r
  }

  /** The recorded index of a marker: its last occurrence, 0 without one. */
  function MarkOf(k: string, ch: char): nat {
    match LastIndex(k, ch)
    case None => 0
    case Some(i) => i
  }

  /** `from_str` succeeds exactly on accepted characters; the heights are the
      cell letters' heights in reading order, and `start`/`end` are the last
      `S` and `E` among them. */
  lemma {:induction false} ScanSpec(s: string)
    ensures Scan(s).Some? <==> forall i :: 0 <= i < |s| ==> Accepted(s[i])
    ensures Scan(s).Some? ==>
      var c := Scan(s).value;
      |c.heights| == |Kept(s)|
      && (forall i :: 0 <= i < |Kept(s)| ==> c.heights[i] == Height(Kept(s)[i]))
      && c.start == MarkOf(Kept(s), 'S') && c.end == MarkOf(Kept(s), 'E')
    decreases |s|
  {
    if s != [] {
      var init, x := s[..|s| - 1], s[|s| - 1];
      ScanSpec(init);
      assert forall i :: 0 <= i < |init| ==> init[i] == s[i];
      var k0, k := Kept(init), Kept(s);
      if Scan(init).Some? && Accepted(x) {
        if x != '\n' && x != ' ' {
          assert k == k0 + [x];
          assert k[..|k| - 1] == k0;
          assert forall i :: 0 <= i < |k0| ==> k[i] == k0[i];
        } else {
          assert k == k0;
        }
      }
    }
  }

  /** The `S` cell, when there is one, has height `a` and `E` height `z`:
      so part 2's starting cells include part 1's. */
  lemma MarkersHeights(s: string)
    requires Scan(s).Some?
    ensures 'S' in Kept(s) ==> (Scan(s).value.start < |Scan(s).value.heights|
                                && Scan(s).value.heights[Scan(s).value.start] == 'a' as nat)
    ensures 'E' in Kept(s) ==> (Scan(s).value.end < |Scan(s).value.heights|
                                && Scan(s).value.heights[Scan(s).value.end] == 'z' as nat)
  {
    ScanSpec(s);
  }

  /** `Map::from_str`: the line count is the height and the first line's
      length the width; an empty input is the `unwrap` panic. */
  function MapOf(s: string): Option<Map> {
    if Lines(s) == [] then None
    else
      match Scan(s)
      case None => None
      case Some(c) => Some(Map(c.heights, |Lines(s)[0]|, |Lines(s)|, c.start, c.end))
  }

  /** The `from_str` loop over the characters. */
  method ParseMap(s: string) returns (r: Option<Map>)
    ensures r == MapOf(s)
  {
    var lines := Lines(s);
    if lines == [] {
      return None;
    }
    var heights: seq<nat> := [];
    var start: nat, end: nat := 0, 0;
    for i := 0 to |s|
      invariant Scan(s[..i]) == Some(Cells(heights, start, end))
    {
      assert s[..i + 1][..i] == s[..i];
      var c := s[i];
      if c == '\n' || c == ' ' {
        continue;
      } else if c == 'S' {
        start := |heights|;
        heights := heights + ['a' as nat];
      } else if c == 'E' {
        end := |heights|;
        heights := heights + ['z' as nat];
      } else if 'a' <= c <= 'z' {
        heights := heights + [c as nat];
      } else {
        ScanSpec(s);
        return None;
      }
    }
    assert s[..|s|] == s;
    return Some(Map(heights, |lines[0]|, |lines|, start, end));
  }

  // ----------------------------------------------------------------- puzzles

  /** The search can start from the `S` cell: a walkable grid holding it. */
  predicate Searchable(m: Map) {
    Valid(m) && m.start < |m.heights|
  }

  /** Part 1: the fewest steps from `S` to `E`. `None` stands for the panics:
      bad input, a grid the search cannot walk, or no route (the final
      `unwrap`). */
  method SolveP1(input: string) returns (r: Option<nat>)
    ensures r.Some? ==> (MapOf(input).Some? && Searchable(MapOf(input).value)
                         && Shortest(MapOf(input).value, MapOf(input).value.start, r.value))
    ensures r.None? ==> (MapOf(input).None? || !Searchable(MapOf(input).value)
                         || Unreachable(MapOf(input).value, MapOf(input).value.start))
  {
    var parsed := ParseMap(input);
    if parsed.None? || !Searchable(parsed.value) {
      return None;
    }
    var m := parsed.value;
    r := ShortestPathFrom(m, m.start);
  }

  /** A cell of the lowest height, `a` (including the `S` cell). */
  predicate IsLow(m: Map, s: nat) {
    s < |m.heights| && m.heights[s] == 'a' as nat
  }

  /** Every walk from `s` to the end takes at least `n` steps. */
  ghost predicate AtLeast(m: Map, s: nat, n: nat) {
    forall p :: IsPath(m, s, p) && Last(p) == m.end ==> n <= |p| - 1
  }

  /** Part 2's search: the least of the shortest-path lengths from every `a`
      cell that reaches the end; `None` when none does. */
  method FewestFromLowest(m: Map) returns (r: Option<nat>)
    requires Valid(m)
    ensures r.Some? ==> exists s :: IsLow(m, s) && Shortest(m, s, r.value)
    ensures r.Some? ==> forall s: nat :: IsLow(m, s) ==> AtLeast(m, s, r.value)
    ensures r.None? ==> forall s: nat :: IsLow(m, s) ==> Unreachable(m, s)
  {
    r := None;
    ghost var best: nat := 0;
    for idx := 0 to |m.heights|
      invariant r.Some? ==> IsLow(m, best) && Shortest(m, best, r.value)
      invariant forall s: nat :: s < idx && IsLow(m, s) ==>
        (r.None? ==> Unreachable(m, s)) && (r.Some? ==> AtLeast(m, s, r.value))
    {
      if m.heights[idx] == 'a' as nat {
        var l := ShortestPathFrom(m, idx);
        if l.Some? && (r.None? || l.value < r.value) {
          r, best := l, idx;
        }
      }
    }
  }

  /** Part 2: the fewest steps to `E` from any `a` cell. `None` stands for
      the panics: bad input, a grid the search cannot walk, or no `a` cell
      reaching `E` (the final `unwrap` of `min`). */
  method SolveP2(input: string) returns (r: Option<nat>)
    ensures r.Some? ==> MapOf(input).Some? && Valid(MapOf(input).value)
    ensures r.Some? ==> exists s :: IsLow(MapOf(input).value, s) && Shortest(MapOf(input).value, s, r.value)
    ensures r.Some? ==> forall s: nat :: IsLow(MapOf(input).value, s) ==> AtLeast(MapOf(input).value, s, r.value)
    ensures r.None? ==> (MapOf(input).None? || !Valid(MapOf(input).value)
                         || forall s: nat :: IsLow(MapOf(input).value, s) ==> Unreachable(MapOf(input).value, s))
  {
    var parsed := ParseMap(input);
    if parsed.None? || !Valid(parsed.value) {
      return None;
    }
    r := FewestFromLowest(parsed.value);
  }
}

