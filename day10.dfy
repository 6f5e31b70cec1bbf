/** Cathode-ray tube: a CPU with one register `x` and two instructions,
    and the sum of signal strengths at cycles 20, 60, ..., 220. */
module Day10 {
  import opened Wrappers
  import opened Text

  /** `noop` takes one cycle; `addx i` takes two and then adds `i` to `x`. */
  datatype Instruction = Nop | Add(i: int)

  /** `Instruction::from_str`: the first whitespace-separated token names the
      instruction, `addx` takes a signed operand from the second token;
      later tokens are never looked at. A missing token, a bad operand or an
      unknown name panics (`None`). */
  function ParseInstruction(s: string): Option<Instruction> {
    var tokens := SplitWhitespace(s);
    if |tokens| == 0 then None
    else if tokens[0] == "addx" then
      if |tokens| < 2 then None
      else
        match ParseInt(tokens[1])
        case None => None
        case Some(i) => Some(Add(i))
    else if tokens[0] == "noop" then Some(Nop)
    else None
  }

  /** The accepted lines: a first token `noop`, or a first token `addx`
      followed by an integer; everything else panics. */
  lemma ParseInstructionCases(s: string)
    ensures ParseInstruction(s) == Some(Nop) <==> |SplitWhitespace(s)| >= 1 && SplitWhitespace(s)[0] == "noop"
    ensures ParseInstruction(s).Some? && ParseInstruction(s).value.Add? <==>
      |SplitWhitespace(s)| >= 2 && SplitWhitespace(s)[0] == "addx" && ParseInt(SplitWhitespace(s)[1]).Some?
    ensures ParseInstruction(s).Some? && ParseInstruction(s).value.Add? ==>
      ParseInt(SplitWhitespace(s)[1]) == Some(ParseInstruction(s).value.i)
  {
  }

  /** The assembly text of an instruction. */
  function Print(inst: Instruction): string {
    match inst
    case Nop => "noop"
    case Add(i) => "addx " + IntToString(i)
  }

  /** Printing an instruction and parsing it back gives it. */
  lemma ParseInstructionRoundTrip(inst: Instruction)
    ensures ParseInstruction(Print(inst)) == Some(inst)
  {
    match inst
    case Nop =>
      SplitWhitespaceToken("noop", []);
      assert "noop" + [] == "noop";
    case Add(i) =>
      IntToStringIsToken(i);
      assert Print(inst) == "addx" + " " + IntToString(i);
      SplitWhitespacePair("addx", IntToString(i));
      ParseIntToString(i);
  }

  /** The register and the number of cycles completed so far. */
  datatype State = State(x: int, cycles: nat)

  /** `execute`: the state after one more instruction. */
  function Execute(st: State, inst: Instruction): (r: State)
    ensures st.cycles < r.cycles <= st.cycles + 2
    ensures inst.Nop? ==> r.cycles == st.cycles + 1 && r.x == st.x
    ensures inst.Add? ==> r.cycles == st.cycles + 2 && r.x == st.x + inst.i
  {
    match inst
    case Nop => State(st.x, st.cycles + 1)
    case Add(i) => State(st.x + i, st.cycles + 2)
  }

  /** The state after a whole program: `x` has grown by every `addx`
      operand. */
  function Run(st: State, insts: seq<Instruction>): (r: State)
    ensures r.x == st.x + Increments(insts)
    decreases |insts|
  {
    if insts == [] then st else Run(Execute(st, insts[0]), insts[1..])
  }

  /** The sum of the `addx` operands of a program. */
  function Increments(insts: seq<Instruction>): int {
    if insts == [] then 0
    else (if insts[0].Add? then insts[0].i else 0) + Increments(insts[1..])
  }

  /** Every instruction takes at least one cycle. */
  lemma {:induction false} RunCycles(st: State, insts: seq<Instruction>)
    ensures st.cycles + |insts| <= Run(st, insts).cycles <= st.cycles + 2 * |insts|
    decreases |insts|
  {
    if insts != [] {
      RunCycles(Execute(st, insts[0]), insts[1..]);
    }
  }

  /** The value of `x` during cycle `c`: the instructions that complete
      before cycle `c` starts have taken effect, the one in progress has
      not. After the program ends `x` keeps its final value. */
  function XDuring(st: State, insts: seq<Instruction>, c: int): int
    decreases |insts|
  {
    if insts == [] || Execute(st, insts[0]).cycles >= c then st.x
    else XDuring(Execute(st, insts[0]), insts[1..], c)
  }

  /** The checkpoint cycles, last one first: `p1::solve` pops from the back. */
  const Pending: seq<nat> := [220, 180, 140, 100, 60, 20]

  /** The initial state: `x` is 1 and no cycle has run. */
  const Start: State := State(1, 0)

  /** Every line, trimmed, as an instruction, or `None` where it would panic. */
  function Parsed(lines: seq<string>): (r: seq<Option<Instruction>>)
    ensures |r| == |lines|
    ensures forall k :: 0 <= k < |lines| ==> r[k] == ParseInstruction(Trim(lines[k]))
  {
    seq(|lines|, k requires 0 <= k < |lines| => ParseInstruction(Trim(lines[k])))
  }

  /** The signal strength of cycle `c` when `x` is `x`. */
  function Product(c: int, x: int): int {
    c * x
  }

  /** Adds to a result that may be a panic. */
  function Plus(a: int, r: Option<int>): Option<int> {
    match r
    case None => None
    case Some(b) => Some(a + b)
  }

  /** What the loop of `p1::solve` computes from state `st`, with `pending`
      still to be reached (smallest last) and the lines not yet read, as
      `Parsed` gives them. Lines are parsed one at a time, so nothing after
      the last checkpoint is parsed: a bad line there does not panic. */
  function Signal(st: State, pending: seq<nat>, lines: seq<Option<Instruction>>): Option<int>
    requires |pending| >= 1
    decreases |lines|
  {
    if lines == [] then Some(0)
    else
      match lines[0]
      case None => None
      case Some(inst) =>
        var next := Execute(st, inst);
        var cp := pending[|pending| - 1];
        if next.cycles >= cp then
          if |pending| == 1 then Some(Product(cp, st.x))
          else Plus(Product(cp, st.x), Signal(next, pending[..|pending| - 1], lines[1..]))
        else Signal(next, pending, lines[1..])
  }

  /** The first remaining line decides the next step of `Signal`. */
  lemma SignalCons(st: State, pending: seq<nat>, lines: seq<Option<Instruction>>, k: nat)
    requires |pending| >= 1 && k < |lines|
    ensures lines[k].None? ==> Signal(st, pending, lines[k..]) == None
    ensures lines[k].Some? && Execute(st, lines[k].value).cycles < pending[|pending| - 1] ==>
      Signal(st, pending, lines[k..]) == Signal(Execute(st, lines[k].value), pending, lines[k + 1..])
    ensures lines[k].Some? && Execute(st, lines[k].value).cycles >= pending[|pending| - 1] && |pending| == 1 ==>
      Signal(st, pending, lines[k..]) == Some(Product(pending[0], st.x))
    ensures lines[k].Some? && Execute(st, lines[k].value).cycles >= pending[|pending| - 1] && |pending| > 1 ==>
      Signal(st, pending, lines[k..]) ==
      Plus(Product(pending[|pending| - 1], st.x), Signal(Execute(st, lines[k].value), pending[..|pending| - 1], lines[k + 1..]))
  {
    assert lines[k..][1..] == lines[k + 1..];
  }

  /** `p1::solve`. */
  method SolveP1(input: string) returns (r: Option<int>)
    ensures r == Signal(Start, Pending, Parsed(Lines(input)))
  {
    r := SumSignals(Parsed(Lines(input)));
  }

  /** The loop of `p1::solve` over the iterator of parsed lines; pulling an
      item that failed to parse panics (`None`), and items after the last
      checkpoint are never pulled. */
  method SumSignals(instructions: seq<Option<Instruction>>) returns (r: Option<int>)
    ensures r == Signal(Start, Pending, instructions)
  {
    var pending := [220, 180, 140, 100, 60, 20];
    var sum := 0;
    var state := State(1, 0);
    ghost var goal := Signal(state, pending, instructions);
    assert instructions[0..] == instructions;
    for k := 0 to |instructions|
      invariant |pending| >= 1
      invariant goal == Plus(sum, Signal(state, pending, instructions[k..]))
    {
      SignalCons(state, pending, instructions, k);
      if instructions[k].None? {
        return None;
      }
      var inst := instructions[k].value;
      var next := Execute(state, inst);
      var cp := pending[|pending| - 1];
      if next.cycles >= cp {
        sum := sum + Product(cp, state.x);
        pending := pending[..|pending| - 1];
        if |pending| == 0 {
          return Some(sum);
        }
      }
      state := next;
    }
    return Some(sum);
  }

  /** The checkpoints are ascending from the back, at least two cycles
      apart, and all still ahead of `st`. */
  predicate Ahead(st: State, pending: seq<nat>) {
    (forall j :: 0 <= j < |pending| ==> pending[j] > st.cycles)
    && (forall i, j :: 0 <= i < j < |pending| ==> pending[i] >= pending[j] + 2)
  }

  /** The puzzle's definition: the sum, over the checkpoints the program
      reaches, of the cycle number times `x` during that cycle. */
  function Strength(st: State, insts: seq<Instruction>, pending: seq<nat>): int {
    if pending == [] then 0
    else
      var c := pending[|pending| - 1];
      (if c <= Run(st, insts).cycles then Product(c, XDuring(st, insts, c)) else 0)
        + Strength(st, insts, pending[..|pending| - 1])
  }

  /** Checkpoints beyond the first instruction see the same `x` and the same
      total from the state after it. */
  lemma {:induction false} StrengthShift(st: State, insts: seq<Instruction>, pending: seq<nat>)
    requires insts != []
    requires forall j :: 0 <= j < |pending| ==> pending[j] > Execute(st, insts[0]).cycles
    ensures Strength(st, insts, pending) == Strength(Execute(st, insts[0]), insts[1..], pending)
  {
    if pending != [] {
      StrengthShift(st, insts, pending[..|pending| - 1]);
    }
  }

  /** Checkpoints not reached add nothing. */
  lemma {:induction false} StrengthNone(st: State, pending: seq<nat>)
    requires forall j :: 0 <= j < |pending| ==> pending[j] > st.cycles
    ensures Strength(st, [], pending) == 0
  {
    if pending != [] {
      StrengthNone(st, pending[..|pending| - 1]);
    }
  }

  /** When every line parses, the loop computes the puzzle's sum of signal
      strengths: each instruction crosses at most one checkpoint, and the
      `x` it records is the one before the instruction. */
  lemma {:induction false} SignalIsStrength(st: State, pending: seq<nat>, lines: seq<Option<Instruction>>, insts: seq<Instruction>)
    requires |pending| >= 1 && Ahead(st, pending)
    requires |lines| == |insts| && forall k :: 0 <= k < |lines| ==> lines[k] == Some(insts[k])
    ensures Signal(st, pending, lines) == Some(Strength(st, insts, pending))
    decreases |lines|
  {
    if lines == [] {
      StrengthNone(st, pending);
    } else {
      var inst := insts[0];
      assert forall k :: 0 <= k < |lines| - 1 ==> lines[1..][k] == lines[k + 1];
      var next := Execute(st, inst);
      var cp := pending[|pending| - 1];
      var rest := pending[..|pending| - 1];
      if next.cycles >= cp {
        RunCycles(next, insts[1..]);
        assert XDuring(st, insts, cp) == st.x;
        StrengthShift(st, insts, rest);
        if |pending| == 1 {
          assert rest == [];
        } else {
          SignalIsStrength(next, rest, lines[1..], insts[1..]);
        }
      } else {
        StrengthShift(st, insts, pending);
        SignalIsStrength(next, pending, lines[1..], insts[1..]);
      }
    }
  }

  /** The checkpoints of `p1::solve` are in the order the loop needs. */
  lemma PendingAhead()
    ensures Ahead(Start, Pending)
  {
  }

  /** The answer of `p1::solve` on an input whose lines all parse. */
  lemma SolveP1Strength(input: string, insts: seq<Instruction>)
    requires |Lines(input)| == |insts|
    requires forall k :: 0 <= k < |insts| ==> ParseInstruction(Trim(Lines(input)[k])) == Some(insts[k])
    ensures Signal(Start, Pending, Parsed(Lines(input))) == Some(Strength(Start, insts, Pending))
  {
    PendingAhead();
    SignalIsStrength(Start, Pending, Parsed(Lines(input)), insts);
  }

  /** The small program of the puzzle text: `noop`, `addx 3`, `addx -5`. */
  lemma SmallProgram()
    ensures XDuring(Start, [Nop, Add(3), Add(-5)], 1) == 1
    ensures XDuring(Start, [Nop, Add(3), Add(-5)], 3) == 1
    ensures XDuring(Start, [Nop, Add(3), Add(-5)], 4) == 4
    ensures XDuring(Start, [Nop, Add(3), Add(-5)], 5) == 4
    ensures Run(Start, [Nop, Add(3), Add(-5)]) == State(-1, 5)
  {
    var p := [Nop, Add(3), Add(-5)];
    assert p[1..] == [Add(3), Add(-5)];
    assert p[1..][1..] == [Add(-5)];
    assert p[1..][1..][1..] == [];
  }
}
