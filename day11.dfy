/** Monkey in the middle: monkeys inspect the items they hold, change each
    item's worry level, and throw it to one of two other monkeys depending
    on whether the new level is divisible by the monkey's test divisor.
    Worry levels are `u64`, monkey indices `usize` (64 bits). */
module Day11 {
  import opened Wrappers
  import opened Text

  /** `u64::MAX`, which is also `usize::MAX` on the 64-bit targets. */
  const U64Max: nat := 0xFFFF_FFFF_FFFF_FFFF

  datatype Operation = Add(n: nat) | Mul(n: nat) | Square

  /** The mathematical value of `new = old <op> operand`. */
  function Exact(op: Operation, w: nat): nat {
    match op
    case Add(n) => w + n
    case Mul(n) => w * n
    case Square => w * w
  }

  /** `Operation::operate`: checked `u64` arithmetic; an overflow panics. */
  function Operate(op: Operation, w: nat): (r: Option<nat>)
    ensures r.Some? <==> Exact(op, w) <= U64Max
    ensures r.Some? ==> r.value == Exact(op, w)
  {
    var v := Exact(op, w);
    if v <= U64Max then Some(v) else None
  }

  /** A monkey as parsed: the items it holds, its operation, its test
      divisor, and where it throws on a true or false test. */
  datatype Monkey = Monkey(items: seq<nat>, operation: Operation, divisor: nat, trueDst: nat, falseDst: nat)

  // ---------------------------------------------------------------------
  // Modular arithmetic behind the reduction by the divisor product.

  /** A positive multiple of a positive number is at least that number. */
  lemma MulAtLeast(k: int, d: int)
    requires k >= 1 && d > 0
    ensures k * d >= d
  {
    assert k * d == (k - 1) * d + d;
  }

  /** Euclidean division has one quotient and one remainder. */
  lemma DivModUnique(x: int, d: int, q: int, r: int)
    requires d > 0 && 0 <= r < d && x == q * d + r
    ensures x / d == q && x % d == r
  {
    var q', r' := x / d, x % d;
    assert x == q' * d + r';
    assert (q - q') * d == r' - r;
    if q > q' {
      MulAtLeast(q - q', d);
    } else if q < q' {
      MulAtLeast(q' - q, d);
    }
  }

  /** Adding one multiple of `d` does not change the remainder. */
  lemma ModAddOne(y: nat, d: nat)
    requires d > 0
    ensures (y + d) % d == y % d
  {
    var q, r := y / d, y % d;
    assert y == q * d + r;
    assert y + d == (q + 1) * d + r;
    DivModUnique(y + d, d, q + 1, r);
  }

  /** Adding any multiple of `d` does not change the remainder. */
  lemma {:induction false} ModAddMultiple(y: nat, d: nat, a: nat)
    requires d > 0
    ensures (y + a * d) % d == y % d
  {
    if a > 0 {
      ModAddMultiple(y, d, a - 1);
      assert y + a * d == (y + (a - 1) * d) + d;
      ModAddOne(y + (a - 1) * d, d);
    }
  }

  /** A number is its remainder plus a multiple of the modulus. */
  lemma Decompose(x: nat, p: nat)
    requires p > 0
    ensures x == x % p + (x / p) * p
  {
  }

  /** Reducing modulo a multiple of `d` never changes divisibility by `d`:
      the claim behind `new_worry %= divisor_product`. */
  lemma ReductionKeepsRemainder(x: nat, p: nat, d: nat)
    requires p > 0 && d > 0 && p % d == 0
    ensures (x % p) % d == x % d
  {
    var k := p / d;
    assert p == k * d;
    Decompose(x, p);
    assert x == x % p + ((x / p) * k) * d;
    ModAddMultiple(x % p, d, (x / p) * k);
  }

  lemma MulExpand(r: nat, q: nat, p: nat, n: nat)
    ensures (r + q * p) * n == r * n + (q * n) * p
  {
  }

  lemma SquareExpand(r: nat, q: nat, p: nat)
    ensures (r + q * p) * (r + q * p) == r * r + (2 * q * r + q * q * p) * p
  {
    MulExpand(r, q, p, r + q * p);
    assert r * (r + q * p) == r * r + (r * q) * p;
  }

  /** The operation applied to a number is congruent to the operation
      applied to its remainder. */
  lemma ExactOfRemainder(op: Operation, a: nat, p: nat)
    requires p > 0
    ensures Exact(op, a) % p == Exact(op, a % p) % p
  {
    var r, q := a % p, a / p;
    Decompose(a, p);
    assert a == r + q * p;
    match op
    case Add(n) =>
      assert a + n == (r + n) + q * p;
      ModAddMultiple(r + n, p, q);
    case Mul(n) =>
      MulExpand(r, q, p, n);
      ModAddMultiple(r * n, p, q * n);
    case Square =>
      SquareExpand(r, q, p);
      ModAddMultiple(r * r, p, 2 * q * r + q * q * p);
  }

  /** Numbers with the same remainder stay congruent under each operation. */
  lemma ExactCongruent(op: Operation, a: nat, b: nat, p: nat)
    requires p > 0 && a % p == b % p
    ensures Exact(op, a) % p == Exact(op, b) % p
  {
    ExactOfRemainder(op, a, p);
    ExactOfRemainder(op, b, p);
  }

  // ---------------------------------------------------------------------
  // The new worry level of one item, and where it goes.

  /** Lines 144-148 as written: operate, divide by 3 when `do_divide` is
      set, then always reduce modulo the divisor product `p`; a zero `p`
      panics. */
  function NewWorry(op: Operation, w: nat, doDivide: bool, p: nat): (r: Option<nat>)
    ensures r.Some? ==> r.value < p
  {
    match Operate(op, w)
    case None => None
    case Some(v) =>
      var d := if doDivide then v / 3 else v;
      if p == 0 then None else Some(d % p)
  }

  /** The worry step with the reduction applied only when not dividing by
      3: division by 3 does not commute with the reduction, so with
      division the level is kept exact. Without division it is the step as
      written; a zero `p` panics either way, as in the source. */
  function NewWorryCorrected(op: Operation, w: nat, doDivide: bool, p: nat): (r: Option<nat>)
    ensures !doDivide ==> r == NewWorry(op, w, doDivide, p)
    ensures doDivide ==> (r.Some? <==> Operate(op, w).Some? && p > 0)
    ensures doDivide && r.Some? ==> r.value == Exact(op, w) / 3
  {
    match Operate(op, w)
    case None => None
    case Some(v) =>
      if p == 0 then None
      else if doDivide then Some(v / 3) else Some(v % p)
  }

  /** The test: `true_dst` when the level is divisible by the monkey's
      divisor, `false_dst` otherwise; a zero divisor panics. */
  function Dest(m: Monkey, w: nat): (r: Option<nat>)
    ensures r.Some? <==> m.divisor > 0
    ensures r == Some(m.trueDst) || r == Some(m.falseDst) || r == None
  {
    if m.divisor == 0 then None
    else if w % m.divisor == 0 then Some(m.trueDst) else Some(m.falseDst)
  }

  /** The puzzle's worry rule, with no reduction and no overflow. */
  function RefWorry(op: Operation, w: nat, doDivide: bool): nat {
    if doDivide then Exact(op, w) / 3 else Exact(op, w)
  }

  /** The puzzle's throw rule. */
  function RefDest(m: Monkey, w: nat): nat
    requires m.divisor > 0
  {
    if w % m.divisor == 0 then m.trueDst else m.falseDst
  }

  /** How a stored level relates to the puzzle's level for the same item:
      equal when dividing by 3, congruent modulo `p` otherwise. */
  predicate Tracks(stored: nat, exact: nat, doDivide: bool, p: nat) {
    if doDivide then stored == exact else p > 0 && stored % p == exact % p
  }

  /** With `p` a multiple of every divisor, the corrected step keeps the
      stored level tracking the puzzle's level, so every throw goes where
      the puzzle's rule sends it. */
  lemma CorrectedTracksReference(m: Monkey, stored: nat, exact: nat, doDivide: bool, p: nat)
    requires p > 0 && m.divisor > 0 && p % m.divisor == 0
    requires Tracks(stored, exact, doDivide, p)
    requires NewWorryCorrected(m.operation, stored, doDivide, p).Some?
    ensures Tracks(NewWorryCorrected(m.operation, stored, doDivide, p).value, RefWorry(m.operation, exact, doDivide), doDivide, p)
    ensures Dest(m, NewWorryCorrected(m.operation, stored, doDivide, p).value)
      == Some(RefDest(m, RefWorry(m.operation, exact, doDivide)))
  {
    if !doDivide {
      var e := Exact(m.operation, exact);
      ExactCongruent(m.operation, stored, exact, p);
      var n := NewWorryCorrected(m.operation, stored, doDivide, p).value;
      assert n == e % p;
      DivModUnique(n, p, 0, n);
      ReductionKeepsRemainder(e, p, m.divisor);
    }
  }

  /** Three monkeys with divisors 2, 3 and 5 (so `p` = 30), all multiplying
      by 1; monkey 0 holds an item of level 90 and throws to monkey 1 either
      way; monkey 1 throws to 2 on true, 0 on false. Monkeys 1 and 2 start
      with one item of level 1 each, since `Monkey::from_str` rejects an
      empty "Starting items:" line. */
  function DivergingMonkeys(): seq<Monkey> {
    [Monkey([90], Mul(1), 2, 1, 1), Monkey([1], Mul(1), 3, 2, 0), Monkey([1], Mul(1), 5, 0, 0)]
  }

  /** With division by 3, reducing first changes where an item goes: the
      item of level 90 is stored as 0 instead of 30 (congruent modulo 30),
      and monkey 1 then throws it to monkey 2 where the puzzle's rule
      throws it (level 10) to monkey 0. */
  lemma AsWrittenDiverges()
    ensures NewWorry(Mul(1), 90, true, 30) == Some(0) && RefWorry(Mul(1), 90, true) == 30
    ensures Dest(DivergingMonkeys()[0], 0) == Some(1) && RefDest(DivergingMonkeys()[0], 30) == 1
    ensures 0 % 30 == 30 % 30
    ensures NewWorry(Mul(1), 0, true, 30) == Some(0) && Dest(DivergingMonkeys()[1], 0) == Some(2)
    ensures RefWorry(Mul(1), 30, true) == 10 && RefDest(DivergingMonkeys()[1], 10) == 0
  {
  }

  // ---------------------------------------------------------------------
  // Turns and rounds.

  /** How levels are computed: as the program stores them (`u64`, checked,
      modulo `p`), or as the puzzle defines them (unbounded and never
      reduced). `WrittenDivide` is the step of lines 144-148 with division
      by 3, reducing after dividing; `Corrected` is `NewWorryCorrected`. */
  datatype Mode = Corrected(doDivide: bool, p: nat) | WrittenDivide(p: nat) | Puzzle(doDivide: bool)

  /** The step the program takes: without division by 3 the written step
      is already the corrected one. */
  function AsWritten(doDivide: bool, p: nat): Mode {
    if doDivide then WrittenDivide(p) else Corrected(false, p)
  }

  function Inspect(op: Operation, w: nat, mode: Mode): Option<nat> {
    match mode
    case Corrected(doDivide, p) => NewWorryCorrected(op, w, doDivide, p)
    case WrittenDivide(p) => NewWorry(op, w, true, p)
    case Puzzle(doDivide) => Some(RefWorry(op, w, doDivide))
  }

  /** The lists of `DivergingMonkeys` before the two turns, and between them. */
  function DivergingStart(): Lists { [[90], [1], [1]] }

  /** After monkey 0's turn as written: the item of level 90, stored as 0,
      is with monkey 1 behind its own item; then monkey 1 throws both
      items (both level 0) to monkey 2. */
  lemma WrittenTurns()
    ensures TurnSpec(DivergingMonkeys(), DivergingStart(), 0, WrittenDivide(30)) == Some([[], [1, 0], [1]])
    ensures TurnSpec(DivergingMonkeys(), [[], [1, 0], [1]], 1, WrittenDivide(30)) == Some([[], [], [1, 0, 0]])
  {
    var ms := DivergingMonkeys();
    var e0: Lists := [[], [1], [1]];
    var e1: Lists := [[], [], [1]];
    assert DivergingStart()[0 := []] == e0 && [[], [1, 0], [1]][1 := []] == e1;
    assert e0[1 := [1, 0]] == [[], [1, 0], [1]] && e1[2 := [1, 0]] == [[], [], [1, 0]];
    assert [[], [], [1, 0]][2 := [1, 0, 0]] == [[], [], [1, 0, 0]];
    assert e0[1] + [0] == [1, 0] && e1[2] + [0] == [1, 0] && [1, 0] + [0] == [1, 0, 0];
    assert [90][1..] == [] && [1, 0][1..] == [0] && [0][1..] == [];
    assert Exact(Mul(1), 90) == 90 && Exact(Mul(1), 1) == 1 && Exact(Mul(1), 0) == 0;
    assert Inspect(ms[0].operation, 90, WrittenDivide(30)) == Some(0) && Dest(ms[0], 0) == Some(1);
    assert Inspect(ms[1].operation, 1, WrittenDivide(30)) == Some(0) && Dest(ms[1], 0) == Some(2);
    assert Inspect(ms[1].operation, 0, WrittenDivide(30)) == Some(0);
    assert Throw(ms, e0, 0, [90], WrittenDivide(30)) == Throw(ms, e0[1 := [1, 0]], 0, [], WrittenDivide(30));
    assert Throw(ms, e1, 1, [1, 0], WrittenDivide(30)) == Throw(ms, e1[2 := [1, 0]], 1, [0], WrittenDivide(30));
    assert Throw(ms, e1[2 := [1, 0]], 1, [0], WrittenDivide(30))
        == Throw(ms, [[], [], [1, 0, 0]], 1, [], WrittenDivide(30));
  }

  /** The same two turns with a step whose new levels are `Some(30)` for 90,
      `Some(0)` for 1 and `Some(10)` for 30: the item of level 90 arrives
      at monkey 1 as 30 and goes on to monkey 0 as 10. */
  lemma ExactTurns(mode: Mode)
    requires mode == Corrected(true, 30) || mode == Puzzle(true)
    ensures TurnSpec(DivergingMonkeys(), DivergingStart(), 0, mode) == Some([[], [1, 30], [1]])
    ensures TurnSpec(DivergingMonkeys(), [[], [1, 30], [1]], 1, mode) == Some([[10], [], [1, 0]])
  {
    var ms := DivergingMonkeys();
    var e0: Lists := [[], [1], [1]];
    var e1: Lists := [[], [], [1]];
    assert DivergingStart()[0 := []] == e0 && [[], [1, 30], [1]][1 := []] == e1;
    assert e0[1 := [1, 30]] == [[], [1, 30], [1]] && e1[2 := [1, 0]] == [[], [], [1, 0]];
    assert [[], [], [1, 0]][0 := [10]] == [[10], [], [1, 0]];
    assert e0[1] + [30] == [1, 30] && e1[2] + [0] == [1, 0] && [] + [10] == [10];
    assert [90][1..] == [] && [1, 30][1..] == [30] && [30][1..] == [];
    assert Exact(Mul(1), 90) == 90 && Exact(Mul(1), 30) == 30 && Exact(Mul(1), 1) == 1;
    assert Inspect(ms[0].operation, 90, mode) == Some(30) && Dest(ms[0], 30) == Some(1);
    assert Inspect(ms[1].operation, 1, mode) == Some(0) && Dest(ms[1], 0) == Some(2);
    assert Inspect(ms[1].operation, 30, mode) == Some(10) && Dest(ms[1], 10) == Some(0);
    assert Throw(ms, e0, 0, [90], mode) == Throw(ms, e0[1 := [1, 30]], 0, [], mode);
    assert Throw(ms, e1, 1, [1, 30], mode) == Throw(ms, e1[2 := [1, 0]], 1, [30], mode);
    assert Throw(ms, e1[2 := [1, 0]], 1, [30], mode) == Throw(ms, [[10], [], [1, 0]], 1, [], mode);
  }

  /** Played as written, the first two turns of `DivergingMonkeys` leave
      the item of level 90 with monkey 2; played as the puzzle defines them,
      or with the corrected step, they leave it with monkey 0. The item of
      level 1 goes from monkey 1 to monkey 2 (level 0) in every mode. */
  lemma TurnsDiverge()
    ensures TurnSpec(DivergingMonkeys(), DivergingStart(), 0, WrittenDivide(30)) == Some([[], [1, 0], [1]])
    ensures TurnSpec(DivergingMonkeys(), [[], [1, 0], [1]], 1, WrittenDivide(30)) == Some([[], [], [1, 0, 0]])
    ensures TurnSpec(DivergingMonkeys(), DivergingStart(), 0, Corrected(true, 30)) == Some([[], [1, 30], [1]])
    ensures TurnSpec(DivergingMonkeys(), [[], [1, 30], [1]], 1, Corrected(true, 30)) == Some([[10], [], [1, 0]])
    ensures TurnSpec(DivergingMonkeys(), DivergingStart(), 0, Puzzle(true)) == Some([[], [1, 30], [1]])
    ensures TurnSpec(DivergingMonkeys(), [[], [1, 30], [1]], 1, Puzzle(true)) == Some([[10], [], [1, 0]])
  {
    WrittenTurns();
    ExactTurns(Corrected(true, 30));
    ExactTurns(Puzzle(true));
  }

  /** The program's mode inspects by the step of lines 144-148. */
  lemma InspectAsWritten(op: Operation, w: nat, doDivide: bool, p: nat)
    ensures Inspect(op, w, AsWritten(doDivide, p)) == NewWorry(op, w, doDivide, p)
  {
  }

  /** The item lists of all monkeys, in monkey order. */
  type Lists = seq<seq<nat>>

  /** Monkey `midx` throws the levels `ws` in order; each new level is
      pushed onto its destination's list. A failed step panics (`None`):
      an overflow, a zero divisor or product, a destination out of range,
      or a destination equal to `midx`, whose `RefCell` is already
      borrowed. */
  function Throw(monkeys: seq<Monkey>, items: Lists, midx: nat, ws: seq<nat>, mode: Mode): (r: Option<Lists>)
    requires midx < |monkeys| == |items|
    ensures r.Some? ==> |r.value| == |items| && r.value[midx] == items[midx]
    decreases |ws|
  {
    if ws == [] then Some(items)
    else
      var m := monkeys[midx];
      match Inspect(m.operation, ws[0], mode)
      case None => None
      case Some(w) =>
        match Dest(m, w)
        case None => None
        case Some(dst) =>
          if dst >= |items| || dst == midx then None
          else Throw(monkeys, items[dst := items[dst] + [w]], midx, ws[1..], mode)
  }

  /** The turn of monkey `midx`: its list is taken, left empty, and thrown. */
  function TurnSpec(monkeys: seq<Monkey>, items: Lists, midx: nat, mode: Mode): (r: Option<Lists>)
    requires midx < |monkeys| == |items|
    ensures r.Some? ==> |r.value| == |items| && r.value[midx] == []
  {
    Throw(monkeys, items[midx := []], midx, items[midx], mode)
  }

  /** The number of items held by all monkeys together. */
  function Total(items: Lists): nat {
    if items == [] then 0 else Total(items[..|items| - 1]) + |items[|items| - 1]|
  }

  /** Replacing one list changes the total by the difference in length. */
  lemma {:induction false} TotalUpdate(items: Lists, j: nat, s: seq<nat>)
    requires j < |items|
    ensures Total(items[j := s]) + |items[j]| == Total(items) + |s|
  {
    var n := |items|;
    if j < n - 1 {
      assert items[j := s][..n - 1] == items[..n - 1][j := s];
      TotalUpdate(items[..n - 1], j, s);
    } else {
      assert items[j := s][..n - 1] == items[..n - 1];
    }
  }

  /** The new levels, in order, that monkey `m` sends to monkey `j`. */
  function Sent(m: Monkey, ws: seq<nat>, j: nat, mode: Mode): seq<nat> {
    if ws == [] then []
    else
      var now := match Inspect(m.operation, ws[0], mode)
        case Some(w) => if Dest(m, w) == Some(j) then [w] else []
        case None => [];
      now + Sent(m, ws[1..], j, mode)
  }

  /** Throwing keeps every item: the total grows by the number thrown. */
  lemma {:induction false} ThrowTotal(monkeys: seq<Monkey>, items: Lists, midx: nat, ws: seq<nat>, mode: Mode)
    requires midx < |monkeys| == |items|
    requires Throw(monkeys, items, midx, ws, mode).Some?
    ensures Total(Throw(monkeys, items, midx, ws, mode).value) == Total(items) + |ws|
    decreases |ws|
  {
    if ws != [] {
      var m := monkeys[midx];
      var w := Inspect(m.operation, ws[0], mode).value;
      var dst := Dest(m, w).value;
      TotalUpdate(items, dst, items[dst] + [w]);
      ThrowTotal(monkeys, items[dst := items[dst] + [w]], midx, ws[1..], mode);
    }
  }

  /** Every other monkey's list ends with what was sent to it, in order. */
  lemma {:induction false} ThrowAppends(monkeys: seq<Monkey>, items: Lists, midx: nat, ws: seq<nat>, mode: Mode, j: nat)
    requires midx < |monkeys| == |items| && j < |items| && j != midx
    requires Throw(monkeys, items, midx, ws, mode).Some?
    ensures Throw(monkeys, items, midx, ws, mode).value[j] == items[j] + Sent(monkeys[midx], ws, j, mode)
    decreases |ws|
  {
    if ws != [] {
      var m := monkeys[midx];
      var w := Inspect(m.operation, ws[0], mode).value;
      var dst := Dest(m, w).value;
      ThrowAppends(monkeys, items[dst := items[dst] + [w]], midx, ws[1..], mode, j);
      if dst == j {
        assert items[j] + [w] + Sent(m, ws[1..], j, mode) == items[j] + ([w] + Sent(m, ws[1..], j, mode));
      }
    }
  }

  /** A turn keeps the number of items: the thrower's list is emptied and
      every item lands on another list. */
  lemma TurnTotal(monkeys: seq<Monkey>, items: Lists, midx: nat, mode: Mode)
    requires midx < |monkeys| == |items|
    requires TurnSpec(monkeys, items, midx, mode).Some?
    ensures Total(TurnSpec(monkeys, items, midx, mode).value) == Total(items)
  {
    TotalUpdate(items, midx, []);
    ThrowTotal(monkeys, items[midx := []], midx, items[midx], mode);
  }

  /** The item lists and the inspection counts, one per monkey. The
      source's `BTreeMap` of counts is keyed by monkey index and filled for
      every monkey in the first round, so it is a sequence here. */
  datatype Troop = Troop(items: Lists, counts: seq<nat>)

  /** The rest of a round from monkey `midx` on: each monkey's count grows
      by the length of its list, then it takes its turn. */
  function RoundFrom(monkeys: seq<Monkey>, items: Lists, counts: seq<nat>, midx: nat, mode: Mode): (r: Option<Troop>)
    requires |monkeys| == |items| == |counts| && midx <= |items|
    ensures r.Some? ==> |r.value.items| == |items| == |r.value.counts|
    decreases |items| - midx
  {
    if midx == |items| then Some(Troop(items, counts))
    else
      match TurnSpec(monkeys, items, midx, mode)
      case None => None
      case Some(next) => RoundFrom(monkeys, next, counts[midx := counts[midx] + |items[midx]|], midx + 1, mode)
  }

  /** `n` more rounds. */
  function Rounds(monkeys: seq<Monkey>, items: Lists, counts: seq<nat>, n: nat, mode: Mode): (r: Option<Troop>)
    requires |monkeys| == |items| == |counts|
    ensures r.Some? ==> |r.value.items| == |items| == |r.value.counts|
    decreases n
  {
    if n == 0 then Some(Troop(items, counts))
    else
      match RoundFrom(monkeys, items, counts, 0, mode)
      case None => None
      case Some(t) => Rounds(monkeys, t.items, t.counts, n - 1, mode)
  }

  /** A round keeps the number of items, and no count ever shrinks. */
  lemma {:induction false} RoundFromKeeps(monkeys: seq<Monkey>, items: Lists, counts: seq<nat>, midx: nat, mode: Mode)
    requires |monkeys| == |items| == |counts| && midx <= |items|
    requires RoundFrom(monkeys, items, counts, midx, mode).Some?
    ensures Total(RoundFrom(monkeys, items, counts, midx, mode).value.items) == Total(items)
    ensures forall i :: 0 <= i < |counts| ==> counts[i] <= RoundFrom(monkeys, items, counts, midx, mode).value.counts[i]
    decreases |items| - midx
  {
    if midx < |items| {
      TurnTotal(monkeys, items, midx, mode);
      var next := TurnSpec(monkeys, items, midx, mode).value;
      RoundFromKeeps(monkeys, next, counts[midx := counts[midx] + |items[midx]|], midx + 1, mode);
    }
  }

  /** Any number of rounds keeps the number of items, and no count ever
      shrinks. */
  lemma {:induction false} RoundsKeep(monkeys: seq<Monkey>, items: Lists, counts: seq<nat>, n: nat, mode: Mode)
    requires |monkeys| == |items| == |counts|
    requires Rounds(monkeys, items, counts, n, mode).Some?
    ensures Total(Rounds(monkeys, items, counts, n, mode).value.items) == Total(items)
    ensures forall i :: 0 <= i < |counts| ==> counts[i] <= Rounds(monkeys, items, counts, n, mode).value.counts[i]
    decreases n
  {
    if n > 0 {
      RoundFromKeeps(monkeys, items, counts, 0, mode);
      var t := RoundFrom(monkeys, items, counts, 0, mode).value;
      RoundsKeep(monkeys, t.items, t.counts, n - 1, mode);
    }
  }

  // ---------------------------------------------------------------------
  // Reduction modulo the divisor product gives the puzzle's counts.

  /** Every divisor is positive and divides `p`. */
  predicate DividesAll(monkeys: seq<Monkey>, p: nat) {
    forall i :: 0 <= i < |monkeys| ==> monkeys[i].divisor > 0 && p % monkeys[i].divisor == 0
  }

  predicate SeqTrack(stored: seq<nat>, exact: seq<nat>, doDivide: bool, p: nat) {
    |stored| == |exact| && forall k :: 0 <= k < |stored| ==> Tracks(stored[k], exact[k], doDivide, p)
  }

  /** Stored lists track the puzzle's lists item by item. */
  predicate ListsTrack(stored: Lists, exact: Lists, doDivide: bool, p: nat) {
    |stored| == |exact| && forall i :: 0 <= i < |stored| ==> SeqTrack(stored[i], exact[i], doDivide, p)
  }

  lemma TrackPush(stored: Lists, exact: Lists, doDivide: bool, p: nat, dst: nat, w: nat, x: nat)
    requires ListsTrack(stored, exact, doDivide, p) && dst < |stored|
    requires Tracks(w, x, doDivide, p)
    ensures ListsTrack(stored[dst := stored[dst] + [w]], exact[dst := exact[dst] + [x]], doDivide, p)
  {
    var s, e := stored[dst] + [w], exact[dst] + [x];
    assert SeqTrack(s, e, doDivide, p) by {
      assert forall k :: 0 <= k < |stored[dst]| ==> s[k] == stored[dst][k] && e[k] == exact[dst][k];
    }
  }

  /** Throwing the stored levels succeeds only where throwing the puzzle's
      levels succeeds, and the lists keep tracking each other. */
  lemma {:induction false} ThrowTracks(monkeys: seq<Monkey>, stored: Lists, exact: Lists, midx: nat,
                                       ws: seq<nat>, xs: seq<nat>, doDivide: bool, p: nat)
    requires midx < |monkeys| == |stored| && p > 0 && DividesAll(monkeys, p)
    requires ListsTrack(stored, exact, doDivide, p) && SeqTrack(ws, xs, doDivide, p)
    requires Throw(monkeys, stored, midx, ws, Corrected(doDivide, p)).Some?
    ensures Throw(monkeys, exact, midx, xs, Puzzle(doDivide)).Some?
    ensures ListsTrack(Throw(monkeys, stored, midx, ws, Corrected(doDivide, p)).value,
                       Throw(monkeys, exact, midx, xs, Puzzle(doDivide)).value, doDivide, p)
    decreases |ws|
  {
    if ws != [] {
      var m := monkeys[midx];
      CorrectedTracksReference(m, ws[0], xs[0], doDivide, p);
      var w := NewWorryCorrected(m.operation, ws[0], doDivide, p).value;
      var x := RefWorry(m.operation, xs[0], doDivide);
      var dst := Dest(m, w).value;
      TrackPush(stored, exact, doDivide, p, dst, w, x);
      assert SeqTrack(ws[1..], xs[1..], doDivide, p) by {
        assert forall k :: 0 <= k < |ws| - 1 ==> ws[1..][k] == ws[k + 1] && xs[1..][k] == xs[k + 1];
      }
      ThrowTracks(monkeys, stored[dst := stored[dst] + [w]], exact[dst := exact[dst] + [x]], midx, ws[1..], xs[1..], doDivide, p);
    }
  }

  lemma TurnTracks(monkeys: seq<Monkey>, stored: Lists, exact: Lists, midx: nat, doDivide: bool, p: nat)
    requires midx < |monkeys| == |stored| && p > 0 && DividesAll(monkeys, p)
    requires ListsTrack(stored, exact, doDivide, p)
    requires TurnSpec(monkeys, stored, midx, Corrected(doDivide, p)).Some?
    ensures TurnSpec(monkeys, exact, midx, Puzzle(doDivide)).Some?
    ensures ListsTrack(TurnSpec(monkeys, stored, midx, Corrected(doDivide, p)).value,
                       TurnSpec(monkeys, exact, midx, Puzzle(doDivide)).value, doDivide, p)
  {
    assert ListsTrack(stored[midx := []], exact[midx := []], doDivide, p);
    assert SeqTrack(stored[midx], exact[midx], doDivide, p);
    ThrowTracks(monkeys, stored[midx := []], exact[midx := []], midx, stored[midx], exact[midx], doDivide, p);
  }

  lemma {:induction false} RoundFromTracks(monkeys: seq<Monkey>, stored: Lists, exact: Lists, counts: seq<nat>,
                                           midx: nat, doDivide: bool, p: nat)
    requires |monkeys| == |stored| == |counts| && midx <= |stored| && p > 0 && DividesAll(monkeys, p)
    requires ListsTrack(stored, exact, doDivide, p)
    requires RoundFrom(monkeys, stored, counts, midx, Corrected(doDivide, p)).Some?
    ensures RoundFrom(monkeys, exact, counts, midx, Puzzle(doDivide)).Some?
    ensures RoundFrom(monkeys, exact, counts, midx, Puzzle(doDivide)).value.counts
         == RoundFrom(monkeys, stored, counts, midx, Corrected(doDivide, p)).value.counts
    ensures ListsTrack(RoundFrom(monkeys, stored, counts, midx, Corrected(doDivide, p)).value.items,
                       RoundFrom(monkeys, exact, counts, midx, Puzzle(doDivide)).value.items, doDivide, p)
    decreases |stored| - midx
  {
    if midx < |stored| {
      TurnTracks(monkeys, stored, exact, midx, doDivide, p);
      assert SeqTrack(stored[midx], exact[midx], doDivide, p);
      RoundFromTracks(monkeys, TurnSpec(monkeys, stored, midx, Corrected(doDivide, p)).value,
                      TurnSpec(monkeys, exact, midx, Puzzle(doDivide)).value,
                      counts[midx := counts[midx] + |stored[midx]|], midx + 1, doDivide, p);
    }
  }

  /** Rounds on the stored levels count exactly what rounds on the
      puzzle's levels count. */
  lemma {:induction false} RoundsTrack(monkeys: seq<Monkey>, stored: Lists, exact: Lists, counts: seq<nat>,
                                       n: nat, doDivide: bool, p: nat)
    requires |monkeys| == |stored| == |counts| && p > 0 && DividesAll(monkeys, p)
    requires ListsTrack(stored, exact, doDivide, p)
    requires Rounds(monkeys, stored, counts, n, Corrected(doDivide, p)).Some?
    ensures Rounds(monkeys, exact, counts, n, Puzzle(doDivide)).Some?
    ensures Rounds(monkeys, exact, counts, n, Puzzle(doDivide)).value.counts
         == Rounds(monkeys, stored, counts, n, Corrected(doDivide, p)).value.counts
    decreases n
  {
    if n > 0 {
      RoundFromTracks(monkeys, stored, exact, counts, 0, doDivide, p);
      var s := RoundFrom(monkeys, stored, counts, 0, Corrected(doDivide, p)).value;
      var e := RoundFrom(monkeys, exact, counts, 0, Puzzle(doDivide)).value;
      RoundsTrack(monkeys, s.items, e.items, s.counts, n - 1, doDivide, p);
    }
  }

  // ---------------------------------------------------------------------
  // The divisor product and the two busiest monkeys.

  function Prod(ds: seq<nat>): nat {
    if ds == [] then 1 else ds[0] * Prod(ds[1..])
  }

  /** `Iterator::product` on `u64`: a left fold from `acc` whose every
      multiplication is checked (an overflow panics). */
  function CheckedProduct(acc: nat, ds: seq<nat>): Option<nat>
    decreases |ds|
  {
    if ds == [] then Some(acc)
    else if acc * ds[0] > U64Max then None
    else CheckedProduct(acc * ds[0], ds[1..])
  }

  lemma MulCommutes(a: nat, b: nat)
    ensures a * b == b * a
  {
  }

  lemma MulMonotone(a: nat, b: nat, c: nat, d: nat)
    requires a <= c && b <= d
    ensures a * b <= c * d
  {
    assert a * b <= c * b;
    assert c * b <= c * d;
  }

  /** The fold computes the product, and with positive factors it fails
      exactly when the product exceeds `u64::MAX`. */
  lemma {:induction false} CheckedProductIsProd(acc: nat, ds: seq<nat>)
    requires acc <= U64Max
    ensures CheckedProduct(acc, ds).Some? ==> CheckedProduct(acc, ds).value == acc * Prod(ds)
    ensures acc > 0 && (forall k :: 0 <= k < |ds| ==> ds[k] > 0) ==>
              (CheckedProduct(acc, ds).Some? <==> acc * Prod(ds) <= U64Max)
    decreases |ds|
  {
    if ds != [] {
      var rest := Prod(ds[1..]);
      assert acc * Prod(ds) == (acc * ds[0]) * rest;
      if acc * ds[0] <= U64Max {
        CheckedProductIsProd(acc * ds[0], ds[1..]);
      } else if acc > 0 && (forall k :: 0 <= k < |ds| ==> ds[k] > 0) {
        ProdPositive(ds[1..]);
        MulMonotone(acc * ds[0], 1, acc * ds[0], rest);
      }
    }
  }

  lemma {:induction false} ProdPositive(ds: seq<nat>)
    requires forall k :: 0 <= k < |ds| ==> ds[k] > 0
    ensures Prod(ds) > 0
  {
    if ds != [] {
      ProdPositive(ds[1..]);
      MulMonotone(1, 1, ds[0], Prod(ds[1..]));
    }
  }

  /** Every positive factor divides the product. */
  lemma {:induction false} ProdDivisible(ds: seq<nat>, k: nat)
    requires k < |ds| && ds[k] > 0
    ensures Prod(ds) % ds[k] == 0
  {
    var d := ds[k];
    if k == 0 {
      ModAddMultiple(0, d, Prod(ds[1..]));
      assert Prod(ds) == 0 + Prod(ds[1..]) * d;
    } else {
      ProdDivisible(ds[1..], k - 1);
      var q := Prod(ds[1..]) / d;
      Decompose(Prod(ds[1..]), d);
      assert Prod(ds) == 0 + (ds[0] * q) * d;
      ModAddMultiple(0, d, ds[0] * q);
    }
  }

  function Divisors(monkeys: seq<Monkey>): (r: seq<nat>)
    ensures |r| == |monkeys| && forall i :: 0 <= i < |monkeys| ==> r[i] == monkeys[i].divisor
  {
    seq(|monkeys|, i requires 0 <= i < |monkeys| => monkeys[i].divisor)
  }

  /** The index of a largest element. */
  function ArgMax(s: seq<nat>): (r: nat)
    requires |s| > 0
    ensures r < |s| && forall k :: 0 <= k < |s| ==> s[k] <= s[r]
  {
    if |s| == 1 then 0
    else
      var i := ArgMax(s[..|s| - 1]);
      assert forall k :: 0 <= k < |s| - 1 ==> s[..|s| - 1][k] == s[k];
      if s[|s| - 1] > s[i] then |s| - 1 else i
  }

  /** `s` without its element at `i`. */
  function Remove(s: seq<nat>, i: nat): (r: seq<nat>)
    requires i < |s|
    ensures |r| == |s| - 1
    ensures forall k :: 0 <= k < |r| ==> r[k] == s[if k < i then k else k + 1]
  {
    s[..i] + s[i + 1..]
  }

  /** The largest of `s[0..n]` other than `s[skip]`, or 0 if there is none. */
  function MaxOther(s: seq<nat>, skip: nat, n: nat): (r: nat)
    requires n <= |s|
    ensures forall k :: 0 <= k < n && k != skip ==> s[k] <= r
    ensures r == 0 || exists k :: 0 <= k < n && k != skip && s[k] == r
  {
    if n == 0 then 0
    else
      var m := MaxOther(s, skip, n - 1);
      if n - 1 != skip && s[n - 1] > m then s[n - 1] else m
  }

  /** The largest of the counts other than the one at `ArgMax(counts)`. */
  function Second(counts: seq<nat>): nat
    requires |counts| >= 2
  {
    MaxOther(counts, ArgMax(counts), |counts|)
  }

  /** `Second` bounds every other count and is one of them. */
  lemma SecondIsLargestOther(counts: seq<nat>)
    requires |counts| >= 2
    ensures forall k :: 0 <= k < |counts| && k != ArgMax(counts) ==> counts[k] <= Second(counts)
    ensures exists k :: 0 <= k < |counts| && k != ArgMax(counts) && counts[k] == Second(counts)
  {
    var a := ArgMax(counts);
    if Second(counts) == 0 {
      var k := if a == 0 then 1 else 0;
      assert counts[k] <= 0;
    }
  }

  /** `counts[0] * counts[1]` once sorted in decreasing order: the largest
      count times the largest of the others. */
  function TopProduct(counts: seq<nat>): nat
    requires |counts| >= 2
  {
    Times(counts[ArgMax(counts)], Second(counts))
  }

  function Times(a: nat, b: nat): nat {
    a * b
  }

  /** No two different monkeys' counts multiply to more than the product
      of the two largest. */
  lemma PairBound(counts: seq<nat>, i: nat, j: nat)
    requires |counts| >= 2 && i < |counts| && j < |counts| && i != j
    ensures counts[i] * counts[j] <= TopProduct(counts)
  {
    var a := ArgMax(counts);
    SecondIsLargestOther(counts);
    var top, second := counts[a], Second(counts);
    assert TopProduct(counts) == top * second;
    var x, y := counts[i], counts[j];
    if j != a {
      assert x <= top && y <= second;
      MulMonotone(x, y, top, second);
    } else {
      assert y <= top && x <= second;
      MulMonotone(y, x, top, second);
      MulCommutes(x, y);
    }
  }

  /** The product of the two largest counts is the largest product of the
      counts of two different monkeys, and some two monkeys attain it. */
  lemma TopProductIsLargest(counts: seq<nat>)
    requires |counts| >= 2
    ensures forall i, j :: 0 <= i < |counts| && 0 <= j < |counts| && i != j ==> counts[i] * counts[j] <= TopProduct(counts)
    ensures exists i, j :: 0 <= i < |counts| && 0 <= j < |counts| && i != j && counts[i] * counts[j] == TopProduct(counts)
  {
    forall i, j | 0 <= i < |counts| && 0 <= j < |counts| && i != j
      ensures counts[i] * counts[j] <= TopProduct(counts)
    {
      PairBound(counts, i, j);
    }
    var a := ArgMax(counts);
    SecondIsLargestOther(counts);
    var j :| 0 <= j < |counts| && j != a && counts[j] == Second(counts);
    assert counts[a] * counts[j] == TopProduct(counts);
  }

  function Zeros(n: nat): (r: seq<nat>)
    ensures |r| == n && forall i :: 0 <= i < n ==> r[i] == 0
  {
    seq(n, _ => 0)
  }

  /** Each monkey's starting list. */
  function Initial(monkeys: seq<Monkey>): (r: Lists)
    ensures |r| == |monkeys| && forall i :: 0 <= i < |monkeys| ==> r[i] == monkeys[i].items
  {
    seq(|monkeys|, i requires 0 <= i < |monkeys| => monkeys[i].items)
  }

  /** `monkey_business`: play the rounds with levels kept modulo the
      divisor product, and multiply the two largest inspection counts
      (checked, `usize`). With `corrected` unset each level is reduced after
      the division by 3 as lines 144-148 do; with it set the corrected step
      is played. Zero rounds leave the count map empty and fewer than two
      monkeys leave one count, so indexing the counts panics then. */
  function Business(monkeys: seq<Monkey>, nrounds: nat, doDivide: bool, corrected: bool): (r: Option<nat>)
    ensures r.Some? ==> r.value <= U64Max && nrounds > 0 && |monkeys| >= 2
  {
    match CheckedProduct(1, Divisors(monkeys))
    case None => None
    case Some(p) =>
      var mode := if corrected then Corrected(doDivide, p) else AsWritten(doDivide, p);
      match Rounds(monkeys, Initial(monkeys), Zeros(|monkeys|), nrounds, mode)
      case None => None
      case Some(t) =>
        if nrounds == 0 || |t.counts| < 2 then None
        else
          var v := TopProduct(t.counts);
          if v <= U64Max then Some(v) else None
  }

  /** Whenever the corrected answer exists it is the puzzle's: the product
      of the two largest inspection counts when levels are never reduced
      and never overflow. */
  lemma BusinessIsPuzzle(monkeys: seq<Monkey>, nrounds: nat, doDivide: bool)
    requires forall i :: 0 <= i < |monkeys| ==> monkeys[i].divisor > 0
    requires Business(monkeys, nrounds, doDivide, true).Some?
    ensures Rounds(monkeys, Initial(monkeys), Zeros(|monkeys|), nrounds, Puzzle(doDivide)).Some?
    ensures Business(monkeys, nrounds, doDivide, true).value
         == TopProduct(Rounds(monkeys, Initial(monkeys), Zeros(|monkeys|), nrounds, Puzzle(doDivide)).value.counts)
  {
    var ds := Divisors(monkeys);
    CheckedProductIsProd(1, ds);
    var p := CheckedProduct(1, ds).value;
    ProdPositive(ds);
    forall i | 0 <= i < |monkeys| ensures p % monkeys[i].divisor == 0 {
      ProdDivisible(ds, i);
    }
    var init := Initial(monkeys);
    assert ListsTrack(init, init, doDivide, p);
    RoundsTrack(monkeys, init, init, Zeros(|monkeys|), nrounds, doDivide, p);
  }

  /** Without division by 3 the program as written plays the corrected
      step, so its answer, whenever it exists, is the puzzle's. */
  lemma WrittenWithoutDivisionIsPuzzle(monkeys: seq<Monkey>, nrounds: nat)
    requires forall i :: 0 <= i < |monkeys| ==> monkeys[i].divisor > 0
    requires Business(monkeys, nrounds, false, false).Some?
    ensures Rounds(monkeys, Initial(monkeys), Zeros(|monkeys|), nrounds, Puzzle(false)).Some?
    ensures Business(monkeys, nrounds, false, false).value
         == TopProduct(Rounds(monkeys, Initial(monkeys), Zeros(|monkeys|), nrounds, Puzzle(false)).value.counts)
  {
    assert Business(monkeys, nrounds, false, false) == Business(monkeys, nrounds, false, true);
    BusinessIsPuzzle(monkeys, nrounds, false);
  }

  // ---------------------------------------------------------------------
  // The loops of `monkey_business`, on the item lists in place.

  /** The innermost loop: the list of monkey `midx` is replaced by an
      empty one and its items are pushed, one at a time, onto their
      destinations' lists. */
  method Turn(monkeys: seq<Monkey>, items: array<seq<nat>>, midx: nat, doDivide: bool, p: nat) returns (ok: bool)
    requires midx < |monkeys| == items.Length
    modifies items
    ensures ok <==> TurnSpec(monkeys, old(items[..]), midx, AsWritten(doDivide, p)).Some?
    ensures ok ==> items[..] == TurnSpec(monkeys, old(items[..]), midx, AsWritten(doDivide, p)).value
  {
    ghost var goal := TurnSpec(monkeys, items[..], midx, AsWritten(doDivide, p));
    var monkey := monkeys[midx];
    var ws := items[midx];
    items[midx] := [];
    for k := 0 to |ws|
      invariant Throw(monkeys, items[..], midx, ws[k..], AsWritten(doDivide, p)) == goal
    {
      assert ws[k..][1..] == ws[k + 1..];
      var w := NewWorry(monkey.operation, ws[k], doDivide, p);
      InspectAsWritten(monkey.operation, ws[k], doDivide, p);
      if w.None? {
        return false;
      }
      var d := Dest(monkey, w.value);
      if d.None? || d.value >= items.Length || d.value == midx {
        return false;
      }
      items[d.value] := items[d.value] + [w.value];
    }
    assert ws[|ws|..] == [];
    return true;
  }

  /** One round: every monkey in index order adds its list's length to its
      count and takes its turn. */
  method Round(monkeys: seq<Monkey>, items: array<seq<nat>>, counts: seq<nat>, doDivide: bool, p: nat)
    returns (ok: bool, newCounts: seq<nat>)
    requires |monkeys| == items.Length == |counts|
    modifies items
    ensures ok <==> RoundFrom(monkeys, old(items[..]), counts, 0, AsWritten(doDivide, p)).Some?
    ensures ok ==> Troop(items[..], newCounts) == RoundFrom(monkeys, old(items[..]), counts, 0, AsWritten(doDivide, p)).value
  {
    ghost var goal := RoundFrom(monkeys, items[..], counts, 0, AsWritten(doDivide, p));
    newCounts := counts;
    for midx := 0 to items.Length
      invariant |newCounts| == items.Length
      invariant RoundFrom(monkeys, items[..], newCounts, midx, AsWritten(doDivide, p)) == goal
    {
      newCounts := newCounts[midx := newCounts[midx] + |items[midx]|];
      ok := Turn(monkeys, items, midx, doDivide, p);
      if !ok {
        return;
      }
    }
    ok := true;
  }

  /** `monkey_business`, given the parsed monkeys. */
  method MonkeyBusiness(monkeys: seq<Monkey>, nrounds: nat, doDivide: bool) returns (r: Option<nat>)
    ensures r == Business(monkeys, nrounds, doDivide, false)
  {
    var product := CheckedProduct(1, Divisors(monkeys));
    if product.None? {
      return None;
    }
    var p := product.value;
    var items := new seq<nat>[|monkeys|](i requires 0 <= i < |monkeys| => monkeys[i].items);
    assert items[..] == Initial(monkeys);
    var counts := Zeros(|monkeys|);
    ghost var goal := Rounds(monkeys, items[..], counts, nrounds, AsWritten(doDivide, p));
    for round := 0 to nrounds
      invariant |counts| == items.Length == |monkeys|
      invariant Rounds(monkeys, items[..], counts, nrounds - round, AsWritten(doDivide, p)) == goal
    {
      var ok;
      ok, counts := Round(monkeys, items, counts, doDivide, p);
      if !ok {
        return None;
      }
    }
    if nrounds == 0 || |counts| < 2 {
      return None;
    }
    var top := TopProduct(counts);
    if top > U64Max {
      return None;
    }
    return Some(top);
  }

  // ---------------------------------------------------------------------
  // Parsing, and the text each monkey is parsed from.

  /** `u64::from_str` (and `usize::from_str` on 64-bit targets). */
  function ParseU64(s: string): (r: Option<nat>)
    ensures r.Some? ==> r.value <= U64Max
    ensures r.Some? <==> ParseNat(s).Some? && ParseNat(s).value <= U64Max
    ensures r.Some? ==> ParseNat(s) == r
  {
    match ParseNat(s)
    case Some(n) => if n <= U64Max then Some(n) else None
    case None => None
  }

  /** Every token parsed as a `u64`; one failure panics. */
  function ParseNumbers(tokens: seq<string>): (r: Option<seq<nat>>)
    ensures r.Some? ==> |r.value| == |tokens| && forall k :: 0 <= k < |tokens| ==> ParseU64(tokens[k]) == Some(r.value[k])
    ensures r.None? ==> exists k :: 0 <= k < |tokens| && ParseU64(tokens[k]).None?
  {
    if tokens == [] then Some([])
    else
      match ParseU64(tokens[0])
      case None => None
      case Some(n) =>
        match ParseNumbers(tokens[1..])
        case None =>
          var k :| 0 <= k < |tokens| - 1 && ParseU64(tokens[1..][k]).None?;
          assert tokens[1..][k] == tokens[k + 1];
          None
        case Some(ns) => Some([n] + ns)
  }

  /** What follows `tag` in the trimmed line, if it starts with `tag`. */
  function Tagged(line: string, tag: string): Option<string> {
    StripPrefix(Trim(line), tag)
  }

  lemma TaggedRoundTrip(tag: string, rest: string)
    requires |tag| > 0 && !IsWhitespace(tag[0])
    requires |rest| > 0 && !IsWhitespace(rest[|rest| - 1])
    ensures Tagged(tag + rest, tag) == Some(rest)
  {
    StripTrimmed(tag, rest);
  }

  /** "Starting items: " followed by the levels separated by ", ". */
  function ParseItems(line: string): Option<seq<nat>> {
    match Tagged(line, "Starting items: ")
    case None => None
    case Some(rest) => ParseNumbers(Split(rest, ", "))
  }

  /** "Operation: new = old " followed by an operator and an operand. */
  function ParseOperation(line: string): Option<Operation> {
    match Tagged(line, "Operation: new = old ")
    case None => None
    case Some(suffix) => ParseOperator(suffix)
  }

  /** "+ n", "* n" or "* old"; any other operator panics. */
  function ParseOperator(suffix: string): Option<Operation> {
    match SplitOnce(suffix, " ")
    case None => None
    case Some((operator, operand)) =>
      if operator == "+" then
        match ParseU64(operand)
        case Some(n) => Some(Add(n))
        case None => None
      else if operator == "*" then
        if operand == "old" then Some(Square)
        else
          match ParseU64(operand)
          case Some(n) => Some(Mul(n))
          case None => None
      else None
  }

  /** A line holding `prefix` and then one number. */
  function ParseField(line: string, prefix: string): Option<nat> {
    match Tagged(line, prefix)
    case None => None
    case Some(rest) => ParseU64(rest)
  }

  /** `Monkey::from_str`: six lines, the first starting with "Monkey ";
      any later lines are ignored. */
  function ParseMonkey(block: string): Option<Monkey> {
    ParseMonkeyLines(Lines(block))
  }

  function ParseMonkeyLines(lines: seq<string>): Option<Monkey> {
    if |lines| < 6 then None
    else ParseMonkeyFrom(lines[0], lines[1], lines[2], lines[3], lines[4], lines[5])
  }

  function ParseMonkeyFrom(header: string, items: string, operation: string, test: string,
                           ifTrue: string, ifFalse: string): Option<Monkey> {
    if !("Monkey " <= Trim(header)) then None
    else
      Assemble(ParseItems(items), ParseOperation(operation), ParseField(test, "Test: divisible by "),
               ParseField(ifTrue, "If true: throw to monkey "), ParseField(ifFalse, "If false: throw to monkey "))
  }

  /** A monkey from its five parsed fields; any missing field has panicked. */
  function Assemble(items: Option<seq<nat>>, op: Option<Operation>, divisor: Option<nat>,
                    trueDst: Option<nat>, falseDst: Option<nat>): (r: Option<Monkey>)
    ensures r.Some? <==> items.Some? && op.Some? && divisor.Some? && trueDst.Some? && falseDst.Some?
  {
    if items.Some? && op.Some? && divisor.Some? && trueDst.Some? && falseDst.Some? then
      Some(Monkey(items.value, op.value, divisor.value, trueDst.value, falseDst.value))
    else None
  }

  /** The blocks between blank lines, each parsed as a monkey. */
  function ParseMonkeys(input: string): Option<seq<Monkey>> {
    ParseBlocks(Split(input, "\n\n"))
  }

  function ParseBlocks(blocks: seq<string>): (r: Option<seq<Monkey>>)
    ensures r.Some? ==> |r.value| == |blocks| && forall k :: 0 <= k < |blocks| ==> ParseMonkey(blocks[k]) == Some(r.value[k])
  {
    if blocks == [] then Some([])
    else
      match (ParseMonkey(blocks[0]), ParseBlocks(blocks[1..]))
      case (Some(m), Some(ms)) => Some([m] + ms)
      case _ => None
  }

  function Render(ns: seq<nat>): (r: seq<string>)
    ensures |r| == |ns| && forall k :: 0 <= k < |ns| ==> r[k] == NatToString(ns[k])
  {
    seq(|ns|, k requires 0 <= k < |ns| => NatToString(ns[k]))
  }

  function OperationText(op: Operation): string {
    match op
    case Add(n) => "+ " + NatToString(n)
    case Mul(n) => "* " + NatToString(n)
    case Square => "* old"
  }

  function HeaderLine(i: nat): string {
    "Monkey " + NatToString(i) + ":"
  }

  function ItemsLine(items: seq<nat>): string {
    "Starting items: " + Join(Render(items), ", ")
  }

  function OperationLine(op: Operation): string {
    "Operation: new = old " + OperationText(op)
  }

  function FieldLine(prefix: string, n: nat): string {
    prefix + NatToString(n)
  }

  /** The six lines describing monkey `i`, without indentation. */
  function MonkeyLines(i: nat, m: Monkey): seq<string> {
    [HeaderLine(i), ItemsLine(m.items), OperationLine(m.operation),
     FieldLine("Test: divisible by ", m.divisor),
     FieldLine("If true: throw to monkey ", m.trueDst),
     FieldLine("If false: throw to monkey ", m.falseDst)]
  }

  /** A monkey `Monkey::from_str` can hold: at least one item, and every
      number within `u64`. */
  predicate Printable(m: Monkey) {
    |m.items| >= 1 && (forall k :: 0 <= k < |m.items| ==> m.items[k] <= U64Max)
    && m.divisor <= U64Max && m.trueDst <= U64Max && m.falseDst <= U64Max
    && OperandFits(m.operation)
  }

  lemma {:induction false} ParseNumbersRender(ns: seq<nat>)
    requires forall k :: 0 <= k < |ns| ==> ns[k] <= U64Max
    ensures ParseNumbers(Render(ns)) == Some(ns)
  {
    if ns != [] {
      ParseNatToString(ns[0]);
      assert Render(ns)[1..] == Render(ns[1..]);
      ParseNumbersRender(ns[1..]);
      assert [ns[0]] + ns[1..] == ns;
    }
  }

  /** A line that starts with `prefix` and ends with a number is read back
      as that number. */
  lemma ParseFieldRoundTrip(prefix: string, n: nat)
    requires |prefix| > 0 && !IsWhitespace(prefix[0]) && n <= U64Max
    ensures ParseField(FieldLine(prefix, n), prefix) == Some(n)
  {
    NatToStringEnd(n);
    TaggedRoundTrip(prefix, NatToString(n));
    ParseNatToString(n);
  }

  /** The levels joined with ", " are split and parsed back. */
  lemma ParseJoinedNumbers(items: seq<nat>)
    requires |items| >= 1 && forall k :: 0 <= k < |items| ==> items[k] <= U64Max
    ensures ParseNumbers(Split(Join(Render(items), ", "), ", ")) == Some(items)
  {
    var parts := Render(items);
    forall k | 0 <= k < |parts| ensures ',' !in parts[k] {
      assert AllDigits(parts[k]);
    }
    SplitJoin(parts, ", ");
    ParseNumbersRender(items);
  }

  /** The joined levels end with the last level's last digit. */
  lemma JoinedNumbersEnd(items: seq<nat>)
    requires |items| >= 1
    ensures |Join(Render(items), ", ")| > 0
    ensures !IsWhitespace(Join(Render(items), ", ")[|Join(Render(items), ", ")| - 1])
  {
    var parts := Render(items);
    var body := Join(parts, ", ");
    JoinEndsWith(parts, ", ");
    var last := parts[|parts| - 1];
    NatToStringEnd(items[|items| - 1]);
    assert body[|body| - 1] == last[|last| - 1];
  }

  lemma ParseItemsRoundTrip(items: seq<nat>)
    requires |items| >= 1 && forall k :: 0 <= k < |items| ==> items[k] <= U64Max
    ensures ParseItems(ItemsLine(items)) == Some(items)
  {
    JoinedNumbersEnd(items);
    TaggedRoundTrip("Starting items: ", Join(Render(items), ", "));
    ParseJoinedNumbers(items);
  }

  predicate OperandFits(op: Operation) {
    match op
    case Add(n) => n <= U64Max
    case Mul(n) => n <= U64Max
    case Square => true
  }

  lemma ParseOperatorRoundTrip(op: Operation)
    requires OperandFits(op)
    ensures ParseOperator(OperationText(op)) == Some(op)
  {
    match op
    case Add(n) =>
      assert OperationText(op) == "+" + " " + NatToString(n);
      SplitOnceAfter("+", " ", NatToString(n));
      ParseNatToString(n);
    case Mul(n) =>
      var d := NatToString(n);
      assert OperationText(op) == "*" + " " + d;
      SplitOnceAfter("*", " ", d);
      ParseNatToString(n);
      assert d != "old" by {
        assert IsDigit(d[0]);
      }
    case Square =>
      assert OperationText(op) == "*" + " " + "old";
      SplitOnceAfter("*", " ", "old");
  }

  lemma ParseOperationRoundTrip(op: Operation)
    requires OperandFits(op)
    ensures ParseOperation(OperationLine(op)) == Some(op)
  {
    var text := OperationText(op);
    assert !IsWhitespace(text[|text| - 1]) by {
      if !op.Square? {
        NatToStringEnd(op.n);
        assert text[|text| - 1] == NatToString(op.n)[|NatToString(op.n)| - 1];
      }
    }
    TaggedRoundTrip("Operation: new = old ", text);
    ParseOperatorRoundTrip(op);
  }

  /** A tag followed by a number has a newline only if the tag has. */
  lemma FieldLineAvoidsNewline(tag: string, n: nat)
    requires '\n' !in tag
    ensures '\n' !in FieldLine(tag, n)
  {
    assert AllDigits(NatToString(n));
  }

  lemma HeaderLineAvoidsNewline(i: nat)
    ensures '\n' !in HeaderLine(i)
  {
    assert AllDigits(NatToString(i));
  }

  lemma ItemsLineAvoidsNewline(items: seq<nat>)
    ensures '\n' !in ItemsLine(items)
  {
    forall j | 0 <= j < |items| ensures '\n' !in Render(items)[j] {
      assert AllDigits(Render(items)[j]);
    }
    JoinAvoids(Render(items), ", ", '\n');
  }

  lemma OperationLineAvoidsNewline(op: Operation)
    ensures '\n' !in OperationLine(op)
  {
    if !op.Square? {
      assert AllDigits(NatToString(op.n));
    }
  }

  lemma TestLineAvoidsNewline(n: nat)
    ensures '\n' !in FieldLine("Test: divisible by ", n)
  {
    FieldLineAvoidsNewline("Test: divisible by ", n);
  }

  lemma TrueLineAvoidsNewline(n: nat)
    ensures '\n' !in FieldLine("If true: throw to monkey ", n)
  {
    FieldLineAvoidsNewline("If true: throw to monkey ", n);
  }

  lemma FalseLineAvoidsNewline(n: nat)
    ensures '\n' !in FieldLine("If false: throw to monkey ", n)
  {
    FieldLineAvoidsNewline("If false: throw to monkey ", n);
  }

  lemma MonkeyLinesAvoidNewline(i: nat, m: Monkey)
    ensures forall k :: 0 <= k < 6 ==> '\n' !in MonkeyLines(i, m)[k]
  {
    HeaderLineAvoidsNewline(i);
    ItemsLineAvoidsNewline(m.items);
    OperationLineAvoidsNewline(m.operation);
    TestLineAvoidsNewline(m.divisor);
    TrueLineAvoidsNewline(m.trueDst);
    FalseLineAvoidsNewline(m.falseDst);
  }

  /** Six lines whose fields parse to those of `m` parse to `m`. */
  lemma ParseMonkeyFields(header: string, items: string, operation: string, test: string, ifTrue: string, ifFalse: string, m: Monkey)
    requires "Monkey " <= Trim(header)
    requires ParseItems(items) == Some(m.items) && ParseOperation(operation) == Some(m.operation)
    requires ParseField(test, "Test: divisible by ") == Some(m.divisor)
    requires ParseField(ifTrue, "If true: throw to monkey ") == Some(m.trueDst)
    requires ParseField(ifFalse, "If false: throw to monkey ") == Some(m.falseDst)
    ensures ParseMonkeyFrom(header, items, operation, test, ifTrue, ifFalse) == Some(m)
  {
  }

  lemma HeaderLineRoundTrip(i: nat)
    ensures "Monkey " <= Trim(HeaderLine(i))
  {
    var rest := NatToString(i) + ":";
    assert HeaderLine(i) == "Monkey " + rest;
    StripTrimmed("Monkey ", rest);
  }

  lemma ParseMonkeyLinesRoundTrip(i: nat, m: Monkey)
    requires Printable(m)
    ensures ParseMonkeyLines(MonkeyLines(i, m)) == Some(m)
  {
    HeaderLineRoundTrip(i);
    ParseItemsRoundTrip(m.items);
    ParseOperationRoundTrip(m.operation);
    ParseFieldRoundTrip("Test: divisible by ", m.divisor);
    ParseFieldRoundTrip("If true: throw to monkey ", m.trueDst);
    ParseFieldRoundTrip("If false: throw to monkey ", m.falseDst);
    var lines := MonkeyLines(i, m);
    ParseMonkeyFields(lines[0], lines[1], lines[2], lines[3], lines[4], lines[5], m);
  }

  /** Printing a monkey and parsing the text gives the monkey back. */
  lemma ParseMonkeyRoundTrip(i: nat, m: Monkey)
    requires Printable(m)
    ensures ParseMonkey(Join(MonkeyLines(i, m), "\n")) == Some(m)
  {
    MonkeyLinesAvoidNewline(i, m);
    LinesOfJoin(MonkeyLines(i, m));
    ParseMonkeyLinesRoundTrip(i, m);
  }

  /** Part one: 20 rounds, dividing by 3. */
  method SolveP1(input: string) returns (r: Option<nat>)
    ensures ParseMonkeys(input).None? ==> r.None?
    ensures ParseMonkeys(input).Some? ==> r == Business(ParseMonkeys(input).value, 20, true, false)
  {
    var monkeys := ParseMonkeys(input);
    if monkeys.None? {
      return None;
    }
    r := MonkeyBusiness(monkeys.value, 20, true);
  }

  /** Part two: 10000 rounds, without dividing. */
  method SolveP2(input: string) returns (r: Option<nat>)
    ensures ParseMonkeys(input).None? ==> r.None?
    ensures ParseMonkeys(input).Some? ==> r == Business(ParseMonkeys(input).value, 10000, false, false)
  {
    var monkeys := ParseMonkeys(input);
    if monkeys.None? {
      return None;
    }
    r := MonkeyBusiness(monkeys.value, 10000, false);
  }
}
