/** Rope bridge: a rope of knots on an integer grid. The head follows the
    instructions one unit at a time; every other knot follows the knot in
    front of it. The answer is the number of distinct positions the last
    knot visits. */
module Day9 {
  import opened Wrappers
  import opened Text
  import opened Arith

  datatype Dir = Up | Down | Left | Right

  /** `Dir::from_str`: one of the four letters; anything else panics (`None`). */
  function ParseDir(s: string): (r: Option<Dir>)
    ensures r.None? <==> s != "U" && s != "D" && s != "L" && s != "R"
    ensures r.Some? ==> DirName(r.value) == s
  {
    if s == "U" then Some(Up)
    else if s == "D" then Some(Down)
    else if s == "L" then Some(Left)
    else if s == "R" then Some(Right)
    else None
  }

  /** The letter of a direction in the puzzle input. */
  function DirName(d: Dir): string {
    match d
    case Up => "U"
    case Down => "D"
    case Left => "L"
    case Right => "R"
  }

  /** One line of input: a direction and how many unit steps to take. The
      count is an `i32`; a count of zero or less takes no step. */
  datatype Instruction = Instruction(dir: Dir, count: int)

  /** `Instruction::from_str`: split at the first space, then the direction
      and a signed count; a missing space or a bad part panics (`None`). */
  function ParseInstruction(s: string): Option<Instruction> {
    match SplitOnce(s, " ")
    case None => None
    case Some((d, c)) =>
      match (ParseDir(d), ParseInt(c))
      case (Some(dir), Some(count)) => Some(Instruction(dir, count))
      case _ => None
  }

  /** Printing an instruction as "<letter> <count>" and parsing it gives it back. */
  lemma ParseInstructionRoundTrip(i: Instruction)
    ensures ParseInstruction(DirName(i.dir) + " " + IntToString(i.count)) == Some(i)
  {
    SplitOnceAfter(DirName(i.dir), " ", IntToString(i.count));
    ParseIntToString(i.count);
  }

  /** An instruction without a space is rejected. */
  lemma ParseInstructionNeedsSpace(s: string)
    requires ' ' !in s
    ensures ParseInstruction(s) == None
  {
    FindNone(s, " ");
  }

  /** Every line, trimmed, parsed as an instruction; any bad line panics (`None`). */
  function ParseInstructions(lines: seq<string>): (r: Option<seq<Instruction>>)
    ensures r.Some? ==> |r.value| == |lines|
    ensures r.Some? ==> forall k :: 0 <= k < |lines| ==> ParseInstruction(Trim(lines[k])) == Some(r.value[k])
  {
    if lines == [] then Some([])
    else
      match (ParseInstruction(Trim(lines[0])), ParseInstructions(lines[1..]))
      case (Some(i), Some(rest)) => Some([i] + rest)
      case _ => None
  }

  type Pos = (int, int)

  /** Two positions overlap or are adjacent, diagonals included. */
  predicate Touching(a: Pos, b: Pos) {
    Abs(a.0 - b.0) <= 1 && Abs(a.1 - b.1) <= 1
  }

  /** The condition `tail_pos` asserts: at most two apart on each axis. */
  predicate Within2(a: Pos, b: Pos) {
    Abs(a.0 - b.0) <= 2 && Abs(a.1 - b.1) <= 2
  }

  /** `head_pos`: one unit step; up increases the second coordinate. */
  function HeadPos(prev: Pos, d: Dir): (r: Pos)
    ensures Abs(r.0 - prev.0) + Abs(r.1 - prev.1) == 1
    ensures d == Up ==> r.1 > prev.1
    ensures d == Down ==> r.1 < prev.1
    ensures d == Left ==> r.0 < prev.0
    ensures d == Right ==> r.0 > prev.0
  {
    match d
    case Up => (prev.0, prev.1 + 1)
    case Down => (prev.0, prev.1 - 1)
    case Left => (prev.0 - 1, prev.1)
    case Right => (prev.0 + 1, prev.1)
  }

  /** `test_head_pos`. */
  lemma HeadPosExamples()
    ensures HeadPos((0, 0), Left) == (-1, 0)
    ensures HeadPos((0, 0), Right) == (1, 0)
    ensures HeadPos((0, 0), Up) == (0, 1)
    ensures HeadPos((0, 0), Down) == (0, -1)
  {
  }

  /** `tail_pos`: a knot that touches the knot ahead stays put; otherwise it
      steps one unit towards it on each axis where they differ. The source
      asserts the knots are at most two apart on each axis. */
  function TailPos(tail: Pos, head: Pos): (r: Pos)
    requires Within2(tail, head)
    ensures Touching(r, head)
    ensures Touching(r, tail)
    ensures r == tail <==> Touching(tail, head)
    ensures Abs(head.0 - r.0) <= Abs(head.0 - tail.0) && Abs(head.1 - r.1) <= Abs(head.1 - tail.1)
  {
    var diff := (head.0 - tail.0, head.1 - tail.1);
    if Abs(diff.0) < 2 && Abs(diff.1) < 2 then tail
    else (tail.0 + Signum(diff.0), tail.1 + Signum(diff.1))
  }

  /** `test_tail_pos`. */
  lemma TailPosExamples()
    ensures TailPos((0, 0), (0, 0)) == (0, 0)
    ensures TailPos((0, 0), (0, 2)) == (0, 1)
    ensures TailPos((0, 0), (0, -2)) == (0, -1)
    ensures TailPos((0, 0), (1, 1)) == (0, 0)
    ensures TailPos((0, 0), (2, 2)) == (1, 1)
    ensures TailPos((0, 0), (1, 2)) == (1, 1)
  {
  }

  /** Every knot touches the next one: the state between steps. */
  predicate Chain(knots: seq<Pos>) {
    forall j :: 0 <= j < |knots| - 1 ==> Touching(knots[j], knots[j + 1])
  }

  /** Touching does not depend on the order of the two positions. */
  lemma TouchingSymmetric(a: Pos, b: Pos)
    requires Touching(a, b)
    ensures Touching(b, a)
  {
  }

  /** Two touching steps never put knots more than two apart. */
  lemma TouchingTwice(a: Pos, b: Pos, c: Pos)
    requires Touching(a, b) || Touching(b, a)
    requires Touching(b, c) || Touching(c, b)
    ensures Within2(a, c) && Within2(c, a)
  {
  }

  /** Knots `i..` follow in index order, knot `i - 1` having already moved:
      the inner loop `for i in 1..knots.len()`. Knot `i - 1` is at most two
      apart from knot `i` and the knots behind still touch, so every call
      of `TailPos` meets its assertion. */
  function FollowFrom(knots: seq<Pos>, i: nat): (r: seq<Pos>)
    requires 1 <= i <= |knots|
    requires i < |knots| ==> Within2(knots[i], knots[i - 1])
    requires forall j :: i <= j < |knots| - 1 ==> Touching(knots[j], knots[j + 1])
    ensures |r| == |knots| && forall k :: 0 <= k < i ==> r[k] == knots[k]
    decreases |knots| - i
  {
    if i == |knots| then knots
    else
      var moved := TailPos(knots[i], knots[i - 1]);
      assert i + 1 < |knots| ==> Within2(knots[i + 1], moved) by {
        if i + 1 < |knots| {
          TouchingTwice(knots[i + 1], knots[i], moved);
        }
      }
      var next := knots[i := moved];
      FollowFrom(next, i + 1)
  }

  /** What the inner loop does to knot `j`: it ends where `tail_pos` puts it
      relative to the already-moved knot ahead of it, which is at most two
      away, and it moves at most one unit per axis. */
  lemma {:induction false} FollowFromAt(knots: seq<Pos>, i: nat, j: nat)
    requires 1 <= i <= j < |knots|
    requires Within2(knots[i], knots[i - 1])
    requires forall j :: i <= j < |knots| - 1 ==> Touching(knots[j], knots[j + 1])
    ensures Within2(knots[j], FollowFrom(knots, i)[j - 1])
    ensures FollowFrom(knots, i)[j] == TailPos(knots[j], FollowFrom(knots, i)[j - 1])
    ensures Touching(FollowFrom(knots, i)[j], knots[j])
    decreases |knots| - i, 1
  {
    if j == i {
      FollowFromHere(knots, i);
    } else {
      FollowFromBehind(knots, i, j);
    }
  }

  /** `FollowFromAt` for a knot behind the first one moved: the loop goes on
      from `i + 1` with knot `i` moved, and knot `j` is not touched yet. */
  lemma {:induction false} FollowFromBehind(knots: seq<Pos>, i: nat, j: nat)
    requires 1 <= i < j < |knots|
    requires Within2(knots[i], knots[i - 1])
    requires forall j :: i <= j < |knots| - 1 ==> Touching(knots[j], knots[j + 1])
    ensures Within2(knots[j], FollowFrom(knots, i)[j - 1])
    ensures FollowFrom(knots, i)[j] == TailPos(knots[j], FollowFrom(knots, i)[j - 1])
    ensures Touching(FollowFrom(knots, i)[j], knots[j])
    decreases |knots| - i, 0
  {
    var moved := TailPos(knots[i], knots[i - 1]);
    var next := knots[i := moved];
    TouchingTwice(knots[i + 1], knots[i], moved);
    FollowFromAt(next, i + 1, j);
  }

  /** The inner loop's first move: knot `i` goes where `tail_pos` puts it,
      and the knot ahead of it stays put. */
  lemma FollowFromHere(knots: seq<Pos>, i: nat)
    requires 1 <= i < |knots|
    requires Within2(knots[i], knots[i - 1])
    requires forall j :: i <= j < |knots| - 1 ==> Touching(knots[j], knots[j + 1])
    ensures FollowFrom(knots, i)[i] == TailPos(knots[i], knots[i - 1])
    ensures FollowFrom(knots, i)[i - 1] == knots[i - 1]
  {
    var moved := TailPos(knots[i], knots[i - 1]);
    var next := knots[i := moved];
    var r := FollowFrom(knots, i);
    assert r == FollowFrom(next, i + 1);
    assert r[i] == next[i];
  }

  /** If the knots ahead of `i` touch, the rope is a chain again after the
      inner loop. */
  lemma FollowFromChain(knots: seq<Pos>, i: nat)
    requires 1 <= i <= |knots|
    requires i < |knots| ==> Within2(knots[i], knots[i - 1])
    requires forall j :: i <= j < |knots| - 1 ==> Touching(knots[j], knots[j + 1])
    requires forall j :: 0 <= j < i - 1 ==> Touching(knots[j], knots[j + 1])
    ensures Chain(FollowFrom(knots, i))
  {
    var r := FollowFrom(knots, i);
    forall j | 0 <= j < |knots| - 1 ensures Touching(r[j], r[j + 1]) {
      if j + 1 < i {
      } else {
        FollowFromAt(knots, i, j + 1);
        TouchingSymmetric(r[j + 1], r[j]);
      }
    }
  }

  /** One unit step of the whole rope: the head moves, then every other knot
      follows the one ahead of it, in index order. The rope stays a chain:
      every knot touches the next. */
  function Step(knots: seq<Pos>, d: Dir): (r: seq<Pos>)
    requires |knots| >= 1 && Chain(knots)
    ensures |r| == |knots| && Chain(r)
  {
    var moved := knots[0 := HeadPos(knots[0], d)];
    assert |knots| > 1 ==> Within2(knots[1], moved[0]) by {
      if |knots| > 1 {
        TouchingTwice(knots[1], knots[0], moved[0]);
      }
    }
    FollowFromChain(moved, 1);
    FollowFrom(moved, 1)
  }

  /** A step moves the head by `head_pos`, pulls each other knot by `tail_pos`
      towards the knot ahead of it (which is never more than two away, so
      the assertion in `tail_pos` holds), and moves no knot more than one
      unit per axis. */
  lemma StepSpec(knots: seq<Pos>, d: Dir)
    requires |knots| >= 1 && Chain(knots)
    ensures Step(knots, d)[0] == HeadPos(knots[0], d)
    ensures forall j :: 1 <= j < |knots| ==>
      Within2(knots[j], Step(knots, d)[j - 1]) && Step(knots, d)[j] == TailPos(knots[j], Step(knots, d)[j - 1])
    ensures forall j :: 0 <= j < |knots| ==> Touching(Step(knots, d)[j], knots[j])
  {
    var moved := knots[0 := HeadPos(knots[0], d)];
    if |knots| > 1 {
      TouchingTwice(knots[1], knots[0], moved[0]);
    }
    var r := Step(knots, d);
    assert r[..1][0] == moved[..1][0];
    forall j | 1 <= j < |knots|
      ensures Within2(knots[j], r[j - 1]) && r[j] == TailPos(knots[j], r[j - 1])
      ensures Touching(r[j], knots[j])
    {
      FollowFromAt(moved, 1, j);
    }
  }

  /** With two knots a step is `head_pos` followed by `tail_pos`. */
  lemma StepPair(head: Pos, tail: Pos, d: Dir)
    requires Touching(head, tail)
    ensures Within2(tail, HeadPos(head, d))
    ensures Step([head, tail], d) == [HeadPos(head, d), TailPos(tail, HeadPos(head, d))]
  {
    StepSpec([head, tail], d);
  }

  /** A rope of `n` knots at the origin. */
  function Start(n: nat): (r: seq<Pos>)
    ensures |r| == n && Chain(r)
    ensures forall j :: 0 <= j < n ==> r[j] == (0, 0)
  {
    seq(n, _ => (0, 0))
  }

  /** `d` repeated `n` times, none when `n <= 0`: `for _ in 0..count`. */
  function Repeat(d: Dir, n: int): (r: seq<Dir>)
    ensures |r| == if n <= 0 then 0 else n
    ensures forall k :: 0 <= k < |r| ==> r[k] == d
  {
    if n <= 0 then [] else [d] + Repeat(d, n - 1)
  }

  /** All unit steps of a list of instructions, in order. */
  function Expand(instrs: seq<Instruction>): seq<Dir> {
    if instrs == [] then [] else Repeat(instrs[0].dir, instrs[0].count) + Expand(instrs[1..])
  }

  /** The positions the last knot occupies: where it is now and after each
      unit step. */
  function Visited(knots: seq<Pos>, moves: seq<Dir>): (r: set<Pos>)
    requires |knots| >= 1 && Chain(knots)
    ensures knots[|knots| - 1] in r
    decreases |moves|
  {
    if moves == [] then {knots[|knots| - 1]}
    else
      StepSpec(knots, moves[0]);
      {knots[|knots| - 1]} + Visited(Step(knots, moves[0]), moves[1..])
  }

  /** At most one new position per step. */
  lemma {:induction false} VisitedBound(knots: seq<Pos>, moves: seq<Dir>)
    requires |knots| >= 1 && Chain(knots)
    ensures 1 <= |Visited(knots, moves)| <= |moves| + 1
    decreases |moves|
  {
    if moves != [] {
      StepSpec(knots, moves[0]);
      VisitedBound(Step(knots, moves[0]), moves[1..]);
    }
  }

  /** Every visited position is reached by a tail that moved at most one
      unit per step, so it lies within `|moves|` of the start on each axis. */
  lemma {:induction false} VisitedNearStart(knots: seq<Pos>, moves: seq<Dir>, p: Pos)
    requires |knots| >= 1 && Chain(knots)
    requires p in Visited(knots, moves)
    ensures Abs(p.0 - knots[|knots| - 1].0) <= |moves| && Abs(p.1 - knots[|knots| - 1].1) <= |moves|
    decreases |moves|
  {
    if moves != [] && p != knots[|knots| - 1] {
      StepSpec(knots, moves[0]);
      var next := Step(knots, moves[0]);
      VisitedNearStart(next, moves[1..], p);
      assert Touching(next[|knots| - 1], knots[|knots| - 1]);
    }
  }

  /** Taking a step off the front of the remaining moves. */
  lemma VisitedCons(knots: seq<Pos>, d: Dir, rest: seq<Dir>)
    requires |knots| >= 1 && Chain(knots)
    ensures Visited(knots, [d] + rest) == {knots[|knots| - 1]} + Visited(Step(knots, d), rest)
  {
    StepSpec(knots, d);
    assert ([d] + rest)[1..] == rest;
  }

  /** One step of an inner loop: recording the last knot after the step
      keeps the recorded positions plus those still to come unchanged. */
  lemma RecordStep(knots: seq<Pos>, positions: set<Pos>, d: Dir, n: int, rest: seq<Dir>, all: set<Pos>)
    requires |knots| >= 1 && Chain(knots) && n > 0 && knots[|knots| - 1] in positions
    requires positions + Visited(knots, Repeat(d, n) + rest) == all
    ensures positions + {Step(knots, d)[|knots| - 1]} + Visited(Step(knots, d), Repeat(d, n - 1) + rest) == all
  {
    var later := Repeat(d, n - 1) + rest;
    assert Repeat(d, n) + rest == [d] + later;
    VisitedCons(knots, d, later);
  }

  /** One step of the two-knot rope keeps the record of positions: the new
      tail is recorded, and the steps still to come visit the rest. */
  lemma PairStep(head: Pos, tail: Pos, positions: set<Pos>, d: Dir, n: int, rest: seq<Dir>, all: set<Pos>)
    requires Touching(head, tail) && tail in positions && n > 0
    requires positions + Visited([head, tail], Repeat(d, n) + rest) == all
    ensures var head' := HeadPos(head, d);
      Within2(tail, head') && Touching(head', TailPos(tail, head')) &&
      positions + {TailPos(tail, head')} + Visited([head', TailPos(tail, head')], Repeat(d, n - 1) + rest) == all
  {
    RecordStep([head, tail], positions, d, n, rest, all);
    StepPair(head, tail, d);
  }

  /** The first instruction's steps come before the rest. */
  lemma ExpandCons(instrs: seq<Instruction>, k: nat)
    requires k < |instrs|
    ensures Expand(instrs[k..]) == Repeat(instrs[k].dir, instrs[k].count) + Expand(instrs[k + 1..])
  {
    assert instrs[k..][1..] == instrs[k + 1..];
  }

  /** The answer for a parsed input and a rope of `n` knots. */
  function Answer(instrs: seq<Instruction>, n: nat): nat
    requires n >= 1
  {
    |Visited(Start(n), Expand(instrs))|
  }

  /** `p1::solve`: a head and a tail, one recorded position per unit step. */
  method SolveP1(input: string) returns (r: Option<nat>)
    ensures r == match ParseInstructions(Lines(input))
                 case None => None
                 case Some(instrs) => Some(Answer(instrs, 2))
  {
    var parsed := ParseInstructions(Lines(input));
    if parsed.None? {
      return None;
    }
    var count := Walk2(parsed.value);
    return Some(count);
  }

  /** The loops of `p1::solve`, after parsing. */
  method Walk2(instrs: seq<Instruction>) returns (count: nat)
    ensures count == Answer(instrs, 2)
  {
    ghost var all := Visited(Start(2), Expand(instrs));
    var head, tail := (0, 0), (0, 0);
    var positions := {tail};
    assert Start(2) == [head, tail];
    for k := 0 to |instrs|
      invariant Touching(head, tail) && tail in positions
      invariant positions + Visited([head, tail], Expand(instrs[k..])) == all
    {
      ExpandCons(instrs, k);
      head, tail, positions := Repeat2(head, tail, positions, instrs[k].dir, instrs[k].count, Expand(instrs[k + 1..]));
    }
    assert Expand(instrs[|instrs|..]) == [] by {
      assert instrs[|instrs|..] == [];
    }
    assert Visited([head, tail], []) == {tail};
    assert positions == all;
    return |positions|;
  }

  /** The inner loop of `p1::solve`: `count` steps of a head and a tail in
      direction `d`, each new tail position recorded. `rest` stands for the
      steps still to come after these. */
  method Repeat2(head: Pos, tail: Pos, positions: set<Pos>, d: Dir, count: int, ghost rest: seq<Dir>)
    returns (head': Pos, tail': Pos, positions': set<Pos>)
    requires Touching(head, tail) && tail in positions
    ensures Touching(head', tail') && tail' in positions'
    ensures positions' + Visited([head', tail'], rest) == positions + Visited([head, tail], Repeat(d, count) + rest)
  {
    ghost var all := positions + Visited([head, tail], Repeat(d, count) + rest);
    head', tail', positions' := head, tail, positions;
    var n := 0;
    while n < count
      invariant n == 0 || n <= count
      invariant Touching(head', tail') && tail' in positions'
      invariant positions' + Visited([head', tail'], Repeat(d, count - n) + rest) == all
      decreases count - n
    {
      PairStep(head', tail', positions', d, count - n, rest, all);
      head' := HeadPos(head', d);
      tail' := TailPos(tail', head');
      positions' := positions' + {tail'};
      n := n + 1;
    }
    assert Repeat(d, count - n) + rest == rest;
  }

  /** One unit step of the rope in place: the head moves, then `knots[i]`
      follows `knots[i - 1]` for `i` in `1..len`. */
  method MoveRope(knots: array<Pos>, d: Dir)
    requires knots.Length >= 1 && Chain(knots[..])
    modifies knots
    ensures knots[..] == Step(old(knots[..]), d)
  {
    ghost var target := Step(knots[..], d);
    knots[0] := HeadPos(knots[0], d);
    for i := 1 to knots.Length
      invariant i < knots.Length ==> Within2(knots[i], knots[i - 1])
      invariant forall j :: i <= j < knots.Length - 1 ==> Touching(knots[j], knots[j + 1])
      invariant FollowFrom(knots[..], i) == target
    {
      knots[i] := TailPos(knots[i], knots[i - 1]);
    }
  }

  /** The inner loop of `p2::solve`: `count` steps of the rope in direction
      `d`, each new position of the last knot recorded. */
  method RepeatRope(knots: array<Pos>, positions: set<Pos>, d: Dir, count: int, ghost rest: seq<Dir>)
    returns (positions': set<Pos>)
    requires knots.Length >= 1 && Chain(knots[..]) && knots[knots.Length - 1] in positions
    modifies knots
    ensures Chain(knots[..]) && knots[knots.Length - 1] in positions'
    ensures positions' + Visited(knots[..], rest) == positions + Visited(old(knots[..]), Repeat(d, count) + rest)
  {
    ghost var all := positions + Visited(knots[..], Repeat(d, count) + rest);
    positions' := positions;
    var n := 0;
    while n < count
      invariant n == 0 || n <= count
      invariant Chain(knots[..]) && knots[knots.Length - 1] in positions'
      invariant positions' + Visited(knots[..], Repeat(d, count - n) + rest) == all
      decreases count - n
    {
      ghost var cur := knots[..];
      RecordStep(cur, positions', d, count - n, rest, all);
      MoveRope(knots, d);
      assert knots[knots.Length - 1] == Step(cur, d)[|cur| - 1];
      positions' := positions' + {knots[knots.Length - 1]};
      n := n + 1;
    }
    assert Repeat(d, count - n) + rest == rest;
  }

  /** `p2::solve`: ten knots, the tenth one's positions recorded. */
  method SolveP2(input: string) returns (r: Option<nat>)
    ensures r == match ParseInstructions(Lines(input))
                 case None => None
                 case Some(instrs) => Some(Answer(instrs, 10))
  {
    var parsed := ParseInstructions(Lines(input));
    if parsed.None? {
      return None;
    }
    var count := Walk10(parsed.value);
    return Some(count);
  }

  /** The loops of `p2::solve`, after parsing. */
  method Walk10(instrs: seq<Instruction>) returns (count: nat)
    ensures count == Answer(instrs, 10)
  {
    ghost var all := Visited(Start(10), Expand(instrs));
    var knots := new Pos[10](_ => (0, 0));
    var positions := {knots[9]};
    assert knots[..] == Start(10);
    for k := 0 to |instrs|
      invariant knots.Length == 10 && Chain(knots[..]) && knots[9] in positions
      invariant positions + Visited(knots[..], Expand(instrs[k..])) == all
    {
      ExpandCons(instrs, k);
      positions := RepeatRope(knots, positions, instrs[k].dir, instrs[k].count, Expand(instrs[k + 1..]));
    }
    assert Expand(instrs[|instrs|..]) == [] by {
      assert instrs[|instrs|..] == [];
    }
    assert Visited(knots[..], []) == {knots[9]};
    assert positions == all;
    return |positions|;
  }
}
