/** Supply stacks: a diagram of crate stacks, and instructions that move
    crates one at a time (CrateMover 9000) or as a block (CrateMover 9001). */
module Day5 {
  import opened Wrappers
  import opened Text

  /** `Instruction`: move `count` crates from stack `src` to stack `dst`,
      both numbered from 1. */
  datatype Instruction = Instruction(count: nat, src: nat, dst: nat)

  /** What `execute9001` demands: the stack numbers are in range (`src - 1`
      and `dst - 1` index the stacks) and the source holds at least `count`
      crates (otherwise `len() - count` underflows). This is never less
      than `execute` demands. */
  predicate CanMove(stacks: seq<seq<char>>, i: Instruction): (r: bool)
    ensures r ==> CanExecute(stacks, i)
  {
    1 <= i.src <= |stacks| && 1 <= i.dst <= |stacks| && i.count <= |stacks[i.src - 1]|
  }

  /** What `execute` demands. It only indexes and pops inside its loop, so
      a move of no crates never panics; a move onto the same stack pops and
      pushes back the same crate, so it needs one crate however many are
      moved; otherwise the source must hold `count` crates. */
  predicate CanExecute(stacks: seq<seq<char>>, i: Instruction) {
    i.count == 0 ||
    (1 <= i.src <= |stacks| && 1 <= i.dst <= |stacks|
     && (i.src == i.dst ==> stacks[i.src - 1] != [])
     && (i.src != i.dst ==> i.count <= |stacks[i.src - 1]|))
  }

  function Reverse(s: seq<char>): (r: seq<char>)
    ensures |r| == |s|
  {
    if s == [] then [] else Reverse(s[1..]) + [s[0]]
  }

  /** The stacks after the top `count` crates of `src` are moved onto `dst`,
      reversed when `reversed` holds (one at a time) and in order otherwise
      (as one block). Moving onto the same stack changes nothing. */
  function Moved(stacks: seq<seq<char>>, i: Instruction, reversed: bool): (r: seq<seq<char>>)
    requires CanMove(stacks, i)
    ensures |r| == |stacks|
  {
    if i.src == i.dst then stacks
    else
      var s := stacks[i.src - 1];
      var top := s[|s| - i.count..];
      stacks[i.src - 1 := s[..|s| - i.count]]
            [i.dst - 1 := stacks[i.dst - 1] + (if reversed then Reverse(top) else top)]
  }

  /** `Moved` for a source stack split into the crates kept and the
      `count` crates on top. */
  lemma MovedAs(stacks: seq<seq<char>>, i: Instruction, reversed: bool, keep: seq<char>, top: seq<char>)
    requires CanMove(stacks, i) && i.src != i.dst
    requires stacks[i.src - 1] == keep + top && |top| == i.count
    ensures Moved(stacks, i, reversed)
      == stacks[i.src - 1 := keep][i.dst - 1 := stacks[i.dst - 1] + (if reversed then Reverse(top) else top)]
  {
    var s := stacks[i.src - 1];
    assert s[..|s| - i.count] == keep;
    assert s[|s| - i.count..] == top;
  }

  /** Total number of crates. */
  function Total(stacks: seq<seq<char>>): nat {
    if stacks == [] then 0 else |stacks[0]| + Total(stacks[1..])
  }

  lemma {:induction false} TotalUpdate(stacks: seq<seq<char>>, k: nat, v: seq<char>)
    requires k < |stacks|
    ensures Total(stacks[k := v]) + |stacks[k]| == Total(stacks) + |v|
  {
    if k > 0 {
      TotalUpdate(stacks[1..], k - 1, v);
      assert stacks[k := v][1..] == stacks[1..][k - 1 := v];
    }
  }

  /** A move keeps every crate: the stacks other than `src` and `dst` are
      unchanged, `src` loses its top `count` crates, `dst` gains them on top,
      and the total is the same. */
  lemma MovedKeepsCrates(stacks: seq<seq<char>>, i: Instruction, reversed: bool)
    requires CanMove(stacks, i)
    ensures forall k :: 0 <= k < |stacks| && k != i.src - 1 && k != i.dst - 1 ==>
      Moved(stacks, i, reversed)[k] == stacks[k]
    ensures i.src != i.dst ==>
      |Moved(stacks, i, reversed)[i.src - 1]| + i.count == |stacks[i.src - 1]|
      && |Moved(stacks, i, reversed)[i.dst - 1]| == |stacks[i.dst - 1]| + i.count
    ensures Total(Moved(stacks, i, reversed)) == Total(stacks)
  {
    if i.src != i.dst {
      var s := stacks[i.src - 1];
      var top := s[|s| - i.count..];
      var mid := stacks[i.src - 1 := s[..|s| - i.count]];
      TotalUpdate(stacks, i.src - 1, s[..|s| - i.count]);
      TotalUpdate(mid, i.dst - 1, stacks[i.dst - 1] + (if reversed then Reverse(top) else top));
    }
  }

  /** One crate moved is one crate moved by either crane. */
  lemma MovedOne(stacks: seq<seq<char>>, i: Instruction)
    requires CanMove(stacks, i) && i.count == 1
    ensures Moved(stacks, i, true) == Moved(stacks, i, false)
  {
    if i.src != i.dst {
      var s := stacks[i.src - 1];
      var top := s[|s| - 1..];
      assert top == [s[|s| - 1]] && top[1..] == [];
      assert Reverse(top) == top;
    }
  }

  lemma ReverseSnoc(a: seq<char>, x: char)
    ensures Reverse([x] + a) == Reverse(a) + [x]
  {
    assert ([x] + a)[1..] == a;
  }

  /** Popping the top crate of `src` and pushing it onto `dst`. */
  function PopPush(stacks: seq<seq<char>>, src: nat, dst: nat): seq<seq<char>>
    requires 1 <= src <= |stacks| && 1 <= dst <= |stacks| && stacks[src - 1] != []
  {
    var s := stacks[src - 1];
    var popped := stacks[src - 1 := s[..|s| - 1]];
    popped[dst - 1 := popped[dst - 1] + [s[|s| - 1]]]
  }

  lemma MovedNone(stacks: seq<seq<char>>, src: nat, dst: nat)
    requires 1 <= src <= |stacks| && 1 <= dst <= |stacks|
    ensures Moved(stacks, Instruction(0, src, dst), true) == stacks
  {
    var s := stacks[src - 1];
    assert s[..|s|] == s;
    assert stacks[dst - 1] + Reverse([]) == stacks[dst - 1];
  }

  /** Moving one more crate one at a time is one more pop and push. */
  lemma MovedStep(stacks: seq<seq<char>>, i: Instruction)
    requires CanMove(stacks, i) && i.count < |stacks[i.src - 1]|
    ensures CanMove(stacks, i.(count := i.count + 1))
    ensures Moved(stacks, i, true)[i.src - 1] != []
    ensures Moved(stacks, i.(count := i.count + 1), true) == PopPush(Moved(stacks, i, true), i.src, i.dst)
  {
    if i.src != i.dst {
      MovedStepApart(stacks, i);
    } else {
      MovedStepSame(stacks, i);
    }
  }

  /** `MovedStep` between two different stacks: the next crate down goes
      on top of the reversed crates already moved. */
  lemma MovedStepApart(stacks: seq<seq<char>>, i: Instruction)
    requires CanMove(stacks, i) && i.count < |stacks[i.src - 1]| && i.src != i.dst
    ensures Moved(stacks, i, true)[i.src - 1] != []
    ensures Moved(stacks, i.(count := i.count + 1), true) == PopPush(Moved(stacks, i, true), i.src, i.dst)
  {
    var s := stacks[i.src - 1];
    var j := i.count;
    var kept, top := s[..|s| - j], s[|s| - j..];
    var d := stacks[i.dst - 1];
    PopPushAfter(stacks, i.src, i.dst, kept, d + Reverse(top));
    assert kept[..|kept| - 1] == s[..|s| - (j + 1)];
    assert s[|s| - (j + 1)..] == [kept[|kept| - 1]] + top;
    ReverseSnoc(top, kept[|kept| - 1]);
    assert d + Reverse(s[|s| - (j + 1)..]) == (d + Reverse(top)) + [kept[|kept| - 1]];
  }

  /** `PopPush` moves the top crate of `src` onto `dst`. */
  lemma PopPushAfter(stacks: seq<seq<char>>, src: nat, dst: nat, from: seq<char>, onto: seq<char>)
    requires 1 <= src <= |stacks| && 1 <= dst <= |stacks| && src != dst && from != []
    ensures PopPush(stacks[src - 1 := from][dst - 1 := onto], src, dst)
      == stacks[src - 1 := from[..|from| - 1]][dst - 1 := onto + [from[|from| - 1]]]
  {
    var p := PopPush(stacks[src - 1 := from][dst - 1 := onto], src, dst);
    var n := stacks[src - 1 := from[..|from| - 1]][dst - 1 := onto + [from[|from| - 1]]];
    forall k | 0 <= k < |stacks| ensures p[k] == n[k] {
    }
  }

  /** `MovedStep` onto the same stack: popping and pushing back the top
      crate leaves the stacks as they are. */
  lemma MovedStepSame(stacks: seq<seq<char>>, i: Instruction)
    requires CanMove(stacks, i) && i.count < |stacks[i.src - 1]| && i.src == i.dst
    ensures Moved(stacks, i, true)[i.src - 1] != []
    ensures Moved(stacks, i.(count := i.count + 1), true) == PopPush(Moved(stacks, i, true), i.src, i.dst)
  {
    var s := stacks[i.src - 1];
    var p := PopPush(stacks, i.src, i.dst);
    assert s[..|s| - 1] + [s[|s| - 1]] == s;
    forall k | 0 <= k < |stacks| ensures p[k] == stacks[k] {
    }
  }

  /** Popping the top crate of a stack and pushing it back changes nothing. */
  lemma PopPushSame(stacks: seq<seq<char>>, src: nat)
    requires 1 <= src <= |stacks| && stacks[src - 1] != []
    ensures PopPush(stacks, src, src) == stacks
  {
    var s := stacks[src - 1];
    var p := PopPush(stacks, src, src);
    assert s[..|s| - 1] + [s[|s| - 1]] == s;
    forall k | 0 <= k < |stacks| ensures p[k] == stacks[k] {
    }
  }

  /** The stacks after `execute`: a move of no crates, or onto the same
      stack, leaves them as they are; otherwise the top `count` crates of
      `src` land on `dst` in reverse order. The crates are kept. */
  function Executed(stacks: seq<seq<char>>, i: Instruction): (r: seq<seq<char>>)
    requires CanExecute(stacks, i)
    ensures |r| == |stacks| && Total(r) == Total(stacks)
  {
    if i.count == 0 || i.src == i.dst then stacks
    else
      MovedKeepsCrates(stacks, i, true);
      Moved(stacks, i, true)
  }

  /** `execute` of one crate more is one more pop from `src` and push onto
      `dst`, so the loop of `execute` computes `Executed`. */
  lemma ExecutedStep(stacks: seq<seq<char>>, i: Instruction)
    requires CanExecute(stacks, i.(count := i.count + 1))
    ensures CanExecute(stacks, i)
    ensures 1 <= i.src <= |stacks| && 1 <= i.dst <= |stacks| && Executed(stacks, i)[i.src - 1] != []
    ensures Executed(stacks, i.(count := i.count + 1)) == PopPush(Executed(stacks, i), i.src, i.dst)
  {
    if i.src == i.dst {
      PopPushSame(stacks, i.src);
    } else if i.count == 0 {
      MovedNone(stacks, i.src, i.dst);
      MovedStep(stacks, i);
    } else {
      MovedStep(stacks, i);
    }
  }

  /** The crates on the stacks. */
  class Stacks {
    var stacks: seq<seq<char>>

    constructor(stacks: seq<seq<char>>)
      ensures this.stacks == stacks
    {
      this.stacks := stacks;
    }

    /** `Stacks::execute`: pop from `src` and push onto `dst`, `count` times. */
    method Execute(i: Instruction)
      requires CanExecute(stacks, i)
      modifies this
      ensures stacks == Executed(old(stacks), i)
    {
      ghost var start := stacks;
      for j := 0 to i.count
        invariant stacks == Executed(start, i.(count := j))
      {
        ExecutedStep(start, i.(count := j));
        var src := stacks[i.src - 1];
        var item := src[|src| - 1];
        stacks := stacks[i.src - 1 := src[..|src| - 1]];
        stacks := stacks[i.dst - 1 := stacks[i.dst - 1] + [item]];
      }
    }

    /** `Stacks::execute9001`: split the top `count` crates off `src` and
        append them to `dst` in order. */
    method Execute9001(i: Instruction)
      requires CanMove(stacks, i)
      modifies this
      ensures stacks == Moved(old(stacks), i, false)
    {
      var src := stacks[i.src - 1];
      var startIdx := |src| - i.count;
      var items := src[startIdx..];
      stacks := stacks[i.src - 1 := src[..startIdx]];
      stacks := stacks[i.dst - 1 := stacks[i.dst - 1] + items];
      if i.src == i.dst {
        assert src[..startIdx] + items == src;
      }
    }

    /** `Stacks::message`: the top crate of every stack, in order. */
    method Message() returns (m: string)
      requires forall k :: 0 <= k < |stacks| ==> stacks[k] != []
      ensures m == Tops(stacks)
    {
      m := [];
      for k := 0 to |stacks|
        invariant m == Tops(stacks[..k])
      {
        assert stacks[..k + 1][..k] == stacks[..k];
        m := m + [stacks[k][|stacks[k]| - 1]];
      }
      assert stacks[..|stacks|] == stacks;
    }
  }

  /** The top crate of every stack. */
  function Tops(stacks: seq<seq<char>>): (r: string)
    requires forall k :: 0 <= k < |stacks| ==> stacks[k] != []
    ensures |r| == |stacks|
    ensures forall k :: 0 <= k < |stacks| ==> r[k] == stacks[k][|stacks[k]| - 1]
  {
    if stacks == [] then []
    else
      var init := stacks[..|stacks| - 1];
      var last := stacks[|stacks| - 1];
      Tops(init) + [last[|last| - 1]]
  }

  /** One row of the diagram: for each of `n` stacks, three characters that
      are either blanks or `[X]` with an ASCII letter X ('A'..'Z', 'a'..'z'),
      each followed by one more character that is skipped if present. A
      missing character, a `[` expectation not met or a crate that is not an
      ASCII letter is a panic, `None`; `char::is_alphabetic` would also accept
      a non-ASCII letter such as 'é'. */
  function ParseCells(line: string, n: nat): (r: Option<seq<Option<char>>>)
    ensures r.Some? ==> |r.value| == n
    ensures r.Some? ==> forall k :: 0 <= k < n && r.value[k].Some? ==> IsAlphabetic(r.value[k].value)
    decreases n
  {
    if n == 0 then Some([])
    else if |line| < 3 then None
    else
      var rest := if |line| > 3 then line[4..] else [];
      var cell :=
        if line[0] == ' ' then (if line[1] == ' ' && line[2] == ' ' then Some(None) else None)
        else if line[0] == '[' && IsAlphabetic(line[1]) && line[2] == ']' then Some(Some(line[1]))
        else None;
      match (cell, ParseCells(rest, n - 1))
      case (Some(c), Some(cs)) => Some([c] + cs)
      case _ => None
  }

  /** The three characters a cell is drawn with. */
  function CellText(c: Option<char>): (r: string)
    ensures |r| == 3
  {
    match c
    case None => "   "
    case Some(x) => ['[', x, ']']
  }

  /** A row of the diagram, cells separated by single spaces. */
  function RenderCells(cells: seq<Option<char>>): string {
    if cells == [] then []
    else if |cells| == 1 then CellText(cells[0])
    else CellText(cells[0]) + " " + RenderCells(cells[1..])
  }

  /** The first cell of a row is read from its first three characters,
      and the character after them is skipped. */
  lemma ParseCellsHead(c: Option<char>, tail: string, n: nat)
    requires c.Some? ==> IsAlphabetic(c.value)
    ensures ParseCells(CellText(c) + tail, n + 1)
      == match ParseCells(if tail == [] then [] else tail[1..], n)
         case Some(cs) => Some([c] + cs)
         case None => None
  {
    var line := CellText(c) + tail;
    assert line[..3] == CellText(c);
    if tail != [] {
      assert line[4..] == tail[1..];
    }
  }

  /** Drawing a row and reading it back gives the row. */
  lemma {:induction false} ParseCellsRoundTrip(cells: seq<Option<char>>)
    requires forall k :: 0 <= k < |cells| && cells[k].Some? ==> IsAlphabetic(cells[k].value)
    ensures ParseCells(RenderCells(cells), |cells|) == Some(cells)
    decreases |cells|, 1
  {
    if |cells| == 1 {
      ParseCellsHead(cells[0], [], 0);
      assert ParseCells([], 0) == Some([]);
      assert CellText(cells[0]) + [] == CellText(cells[0]);
      assert [cells[0]] + [] == cells;
    } else if |cells| > 1 {
      ParseCellsRoundTripMore(cells);
    }
  }

  /** `ParseCellsRoundTrip` for a row of two cells or more: the first cell
      and its separator, then the rest of the row. */
  lemma {:induction false} ParseCellsRoundTripMore(cells: seq<Option<char>>)
    requires forall k :: 0 <= k < |cells| && cells[k].Some? ==> IsAlphabetic(cells[k].value)
    requires |cells| > 1
    ensures ParseCells(RenderCells(cells), |cells|) == Some(cells)
    decreases |cells|, 0
  {
    var rest := RenderCells(cells[1..]);
    ParseCellsRoundTrip(cells[1..]);
    ParseCellsHead(cells[0], " " + rest, |cells| - 1);
    assert (" " + rest)[1..] == rest;
    assert RenderCells(cells) == CellText(cells[0]) + (" " + rest);
    assert cells == [cells[0]] + cells[1..];
  }

  /** Crates of column `k`, bottom first, of rows listed bottom first. */
  function Column(rows: seq<seq<Option<char>>>, k: nat): seq<char>
    requires forall j :: 0 <= j < |rows| ==> k < |rows[j]|
  {
    if rows == [] then []
    else
      var last := rows[|rows| - 1];
      Column(rows[..|rows| - 1], k) + (if last[k].Some? then [last[k].value] else [])
  }

  /** The rows of the diagram above the numbers line, read bottom-up. */
  function ParseRows(body: seq<string>, n: nat): (r: Option<seq<seq<Option<char>>>>)
    ensures r.Some? ==> |r.value| == |body|
    ensures r.Some? ==> forall j :: 0 <= j < |body| ==> |r.value[j]| == n
  {
    if body == [] then Some([])
    else
      match (ParseCells(body[0], n), ParseRows(body[1..], n))
      case (Some(row), Some(rows)) => Some(rows + [row])
      case _ => None
  }

  /** The stacks of a diagram body (the lines above the numbers line) with
      `n` stacks: stack `k` holds column `k` bottom-up. */
  function StacksOf(body: seq<string>, n: nat): Option<seq<seq<char>>> {
    match ParseRows(body, n)
    case None => None
    case Some(rows) => Some(seq(n, k requires 0 <= k < n => Column(rows, k)))
  }

  /** The stacks a diagram describes: the number of stacks is the number of
      labels on its last line. */
  function Diagram(s: string): Option<seq<seq<char>>> {
    var lines := Lines(s);
    if lines == [] then None
    else StacksOf(lines[..|lines| - 1], |SplitWhitespace(Trim(lines[|lines| - 1]))|)
  }

  /** A row on top of the rows adds its crate, if any, to each column. */
  lemma ColumnSnoc(rows: seq<seq<Option<char>>>, row: seq<Option<char>>, k: nat)
    requires forall j :: 0 <= j < |rows| ==> k < |rows[j]|
    requires k < |row|
    ensures Column(rows + [row], k) == Column(rows, k) + (if row[k].Some? then [row[k].value] else [])
  {
    assert (rows + [row])[..|rows|] == rows;
  }

  /** Pushes the crates of one row onto their stacks. */
  method PushRow(stacks: seq<seq<char>>, row: seq<Option<char>>) returns (r: seq<seq<char>>)
    requires |row| == |stacks|
    ensures |r| == |stacks|
    ensures forall k :: 0 <= k < |r| ==>
      r[k] == stacks[k] + (if row[k].Some? then [row[k].value] else [])
  {
    r := stacks;
    for k := 0 to |row|
      invariant |r| == |stacks|
      invariant forall j :: 0 <= j < k ==> r[j] == stacks[j] + (if row[j].Some? then [row[j].value] else [])
      invariant forall j :: k <= j < |r| ==> r[j] == stacks[j]
    {
      if row[k].Some? {
        r := r[k := r[k] + [row[k].value]];
      }
    }
  }

  /** `Stacks::from_str`: the number of stacks from the last line, then
      the rows above it. */
  method ParseStacks(s: string) returns (r: Option<seq<seq<char>>>)
    ensures r == Diagram(s)
  {
    var lines := Lines(s);
    if lines == [] {
      return None;
    }
    var n := |SplitWhitespace(Trim(lines[|lines| - 1]))|;
    r := ParseBody(lines[..|lines| - 1], n);
  }

  /** The rows of `Stacks::from_str`, read from the bottom, each crate pushed
      onto its stack. */
  method ParseBody(body: seq<string>, n: nat) returns (r: Option<seq<seq<char>>>)
    ensures r == StacksOf(body, n)
  {
    var stacks: seq<seq<char>> := seq(n, k => []);
    ghost var rows: seq<seq<Option<char>>> := [];
    var i := |body|;
    while i > 0
      invariant 0 <= i <= |body|
      invariant ParseRows(body[i..], n) == Some(rows)
      invariant |stacks| == n
      invariant forall k :: 0 <= k < n ==> stacks[k] == Column(rows, k)
    {
      i := i - 1;
      var cells := ParseCells(body[i], n);
      assert body[i..][1..] == body[i + 1..];
      if cells.None? {
        ParseRowsFails(body, i, n);
        return None;
      }
      stacks := PushRow(stacks, cells.value);
      forall k | 0 <= k < n ensures stacks[k] == Column(rows + [cells.value], k) {
        ColumnSnoc(rows, cells.value, k);
      }
      rows := rows + [cells.value];
    }
    assert body[0..] == body;
    assert stacks == seq(n, k requires 0 <= k < n => Column(rows, k));
    return Some(stacks);
  }

  /** Rows are read to the end, so a failing row fails the whole diagram. */
  lemma {:induction false} ParseRowsFails(body: seq<string>, i: nat, n: nat)
    requires i < |body| && ParseRows(body[i..], n).None?
    ensures ParseRows(body, n).None?
    decreases i
  {
    if i > 0 {
      assert body[1..][i - 1..] == body[i..];
      ParseRowsFails(body[1..], i - 1, n);
    } else {
      assert body[0..] == body;
    }
  }

  /** `Instruction::from_str`: the tokens `move N from S to D`; later tokens
      are not looked at. */
  function ParseInstruction(s: string): (r: Option<Instruction>) {
    var t := SplitWhitespace(s);
    if |t| < 6 || t[0] != "move" || t[2] != "from" || t[4] != "to" then None
    else
      match (ParseNat(t[1]), ParseNat(t[3]), ParseNat(t[5]))
      case (Some(c), Some(src), Some(dst)) => Some(Instruction(c, src, dst))
      case _ => None
  }

  /** The text `move N from S to D`. */
  function InstructionText(i: Instruction): string {
    Join(["move", NatToString(i.count), "from", NatToString(i.src), "to", NatToString(i.dst)], " ")
  }

  lemma DigitsAreToken(s: string)
    requires s != [] && AllDigits(s)
    ensures IsToken(s)
  {
  }

  /** Writing an instruction out and parsing it back gives the instruction. */
  lemma ParseInstructionRoundTrip(i: Instruction)
    ensures ParseInstruction(InstructionText(i)) == Some(i)
  {
    var tokens := ["move", NatToString(i.count), "from", NatToString(i.src), "to", NatToString(i.dst)];
    DigitsAreToken(NatToString(i.count));
    DigitsAreToken(NatToString(i.src));
    DigitsAreToken(NatToString(i.dst));
    SplitWhitespaceJoin(tokens);
    ParseNatToString(i.count);
    ParseNatToString(i.src);
    ParseNatToString(i.dst);
  }

  /** The instructions, one per line. */
  function ParseInstructions(lines: seq<string>): Option<seq<Instruction>> {
    if lines == [] then Some([])
    else
      match (ParseInstruction(lines[0]), ParseInstructions(lines[1..]))
      case (Some(i), Some(prog)) => Some([i] + prog)
      case _ => None
  }

  /** `parse_input`: the diagram and the instructions, separated by the one
      blank line; a missing or third part is a panic. */
  method ParseInput(input: string) returns (r: Option<(seq<seq<char>>, seq<Instruction>)>)
    ensures r == InputSpec(input)
  {
    var parts := Split(input, "\n\n");
    if |parts| != 2 {
      return None;
    }
    var stacks := ParseStacks(parts[0]);
    var instructions := ParseInstructions(Lines(parts[1]));
    if stacks.None? || instructions.None? {
      return None;
    }
    return Some((stacks.value, instructions.value));
  }

  function InputSpec(input: string): Option<(seq<seq<char>>, seq<Instruction>)> {
    var parts := Split(input, "\n\n");
    if |parts| != 2 then None
    else
      match (Diagram(parts[0]), ParseInstructions(Lines(parts[1])))
      case (Some(st), Some(prog)) => Some((st, prog))
      case _ => None
  }

  /** Running instructions in order, one crate at a time (`execute`) when
      `reversed` holds and as blocks (`execute9001`) otherwise; `None` when
      some instruction panics. */
  function Run(stacks: seq<seq<char>>, prog: seq<Instruction>, reversed: bool): (r: Option<seq<seq<char>>>)
    ensures r.Some? ==> Total(r.value) == Total(stacks)
    decreases |prog|
  {
    if prog == [] then Some(stacks)
    else if reversed then
      if !CanExecute(stacks, prog[0]) then None
      else Run(Executed(stacks, prog[0]), prog[1..], reversed)
    else if !CanMove(stacks, prog[0]) then None
    else
      MovedKeepsCrates(stacks, prog[0], reversed);
      Run(Moved(stacks, prog[0], reversed), prog[1..], reversed)
  }

  /** Running instructions keeps the number of stacks. */
  lemma {:induction false} RunLength(stacks: seq<seq<char>>, prog: seq<Instruction>, reversed: bool)
    requires Run(stacks, prog, reversed).Some?
    ensures |Run(stacks, prog, reversed).value| == |stacks|
    decreases |prog|
  {
    if prog != [] {
      if reversed {
        RunLength(Executed(stacks, prog[0]), prog[1..], reversed);
      } else {
        RunLength(Moved(stacks, prog[0], reversed), prog[1..], reversed);
      }
    }
  }

  predicate AllNonEmpty(stacks: seq<seq<char>>) {
    forall k :: 0 <= k < |stacks| ==> stacks[k] != []
  }

  /** The answer the solvers compute from the input: one top crate per
      stack of the drawing, and none when the input does not parse. */
  function Answer(input: string, reversed: bool): (r: Option<string>)
    ensures InputSpec(input).None? ==> r.None?
    ensures r.Some? ==> |r.value| == |InputSpec(input).value.0|
  {
    match InputSpec(input)
    case None => None
    case Some((st, prog)) =>
      match Run(st, prog, reversed)
      case Some(fin) => RunLength(st, prog, reversed); if AllNonEmpty(fin) then Some(Tops(fin)) else None
      case None => None
  }

  /** Runs the instructions on a `Stacks` with the chosen crane and reads
      the message. */
  method RunAll(input: string, reversed: bool) returns (r: Option<string>)
    ensures r == Answer(input, reversed)
  {
    var parsed := ParseInput(input);
    if parsed.None? {
      return None;
    }
    var (st, prog) := parsed.value;
    var stacks := new Stacks(st);
    for j := 0 to |prog|
      invariant Run(st, prog, reversed) == Run(stacks.stacks, prog[j..], reversed)
    {
      if reversed {
        if !CanExecute(stacks.stacks, prog[j]) {
          return None;
        }
        stacks.Execute(prog[j]);
      } else {
        if !CanMove(stacks.stacks, prog[j]) {
          return None;
        }
        stacks.Execute9001(prog[j]);
      }
      assert prog[j..][1..] == prog[j + 1..];
    }
    if !AllNonEmpty(stacks.stacks) {
      return None;
    }
    var m := stacks.Message();
    r := Some(m);
  }

  /** `p1::solve`. */
  method SolveP1(input: string) returns (r: Option<string>)
    ensures r == Answer(input, true)
  {
    r := RunAll(input, true);
  }

  /** `p2::solve`. */
  method SolveP2(input: string) returns (r: Option<string>)
    ensures r == Answer(input, false)
  {
    r := RunAll(input, false);
  }

  /** The rows of the example diagram. */
  lemma ExampleRow1()
    ensures ParseCells("    [D]    ", 3) == Some([None, Some('D'), None])
  {
    ParseCellsRoundTrip([None, Some('D'), None]);
    assert RenderCells([None]) == "   ";
    assert RenderCells([Some('D'), None]) == "[D]    ";
    assert RenderCells([None, Some('D'), None]) == "    [D]    ";
  }

  lemma ExampleRow2()
    ensures ParseCells("[N] [C]    ", 3) == Some([Some('N'), Some('C'), None])
  {
    ParseCellsRoundTrip([Some('N'), Some('C'), None]);
    assert RenderCells([None]) == "   ";
    assert RenderCells([Some('C'), None]) == "[C]    ";
    assert RenderCells([Some('N'), Some('C'), None]) == "[N] [C]    ";
  }

  lemma ExampleRow3()
    ensures ParseCells("[Z] [M] [P]", 3) == Some([Some('Z'), Some('M'), Some('P')])
  {
    ParseCellsRoundTrip([Some('Z'), Some('M'), Some('P')]);
    assert RenderCells([Some('P')]) == "[P]";
    assert RenderCells([Some('M'), Some('P')]) == "[M] [P]";
    assert RenderCells([Some('Z'), Some('M'), Some('P')]) == "[Z] [M] [P]";
  }

  /** The example's instructions, run with each crane. */
  function ExampleProgram(): seq<Instruction> {
    [Instruction(1, 2, 1), Instruction(3, 1, 3), Instruction(2, 2, 1), Instruction(1, 1, 2)]
  }

  /** One step of the example, with the stacks written out. */
  lemma ExampleStep(before: seq<seq<char>>, i: Instruction, reversed: bool, keep: seq<char>, top: seq<char>,
                    grown: seq<char>, after: seq<seq<char>>)
    requires CanMove(before, i) && i.src != i.dst
    requires before[i.src - 1] == keep + top && |top| == i.count
    requires before[i.dst - 1] + (if reversed then Reverse(top) else top) == grown
    requires after == before[i.src - 1 := keep][i.dst - 1 := grown]
    ensures Moved(before, i, reversed) == after
  {
    MovedAs(before, i, reversed, keep, top);
  }

  lemma ExampleP1Step1()
    ensures Moved([['Z', 'N'], ['M', 'C', 'D'], ['P']], Instruction(1, 2, 1), true) == [['Z', 'N', 'D'], ['M', 'C'], ['P']]
  {
    assert ['M', 'C'] + ['D'] == ['M', 'C', 'D'];
    assert Reverse(['D']) == ['D'];
    assert ['Z', 'N'] + ['D'] == ['Z', 'N', 'D'];
    assert [['Z', 'N'], ['M', 'C', 'D'], ['P']][1 := ['M', 'C']][0 := ['Z', 'N', 'D']] == [['Z', 'N', 'D'], ['M', 'C'], ['P']];
    ExampleStep([['Z', 'N'], ['M', 'C', 'D'], ['P']], Instruction(1, 2, 1), true, ['M', 'C'], ['D'], ['Z', 'N', 'D'], [['Z', 'N', 'D'], ['M', 'C'], ['P']]);
  }

  lemma ExampleP1Step2()
    ensures Moved([['Z', 'N', 'D'], ['M', 'C'], ['P']], Instruction(3, 1, 3), true) == [[], ['M', 'C'], ['P', 'D', 'N', 'Z']]
  {
    assert [] + ['Z', 'N', 'D'] == ['Z', 'N', 'D'];
    assert Reverse(['Z', 'N', 'D']) == ['D', 'N', 'Z'];
    assert ['P'] + ['D', 'N', 'Z'] == ['P', 'D', 'N', 'Z'];
    assert [['Z', 'N', 'D'], ['M', 'C'], ['P']][0 := []][2 := ['P', 'D', 'N', 'Z']] == [[], ['M', 'C'], ['P', 'D', 'N', 'Z']];
    ExampleStep([['Z', 'N', 'D'], ['M', 'C'], ['P']], Instruction(3, 1, 3), true, [], ['Z', 'N', 'D'], ['P', 'D', 'N', 'Z'], [[], ['M', 'C'], ['P', 'D', 'N', 'Z']]);
  }

  lemma ExampleP1Step3()
    ensures Moved([[], ['M', 'C'], ['P', 'D', 'N', 'Z']], Instruction(2, 2, 1), true) == [['C', 'M'], [], ['P', 'D', 'N', 'Z']]
  {
    assert [] + ['M', 'C'] == ['M', 'C'];
    assert Reverse(['M', 'C']) == ['C', 'M'];
    assert [] + ['C', 'M'] == ['C', 'M'];
    assert [[], ['M', 'C'], ['P', 'D', 'N', 'Z']][1 := []][0 := ['C', 'M']] == [['C', 'M'], [], ['P', 'D', 'N', 'Z']];
    ExampleStep([[], ['M', 'C'], ['P', 'D', 'N', 'Z']], Instruction(2, 2, 1), true, [], ['M', 'C'], ['C', 'M'], [['C', 'M'], [], ['P', 'D', 'N', 'Z']]);
  }

  lemma ExampleP1Step4()
    ensures Moved([['C', 'M'], [], ['P', 'D', 'N', 'Z']], Instruction(1, 1, 2), true) == [['C'], ['M'], ['P', 'D', 'N', 'Z']]
  {
    assert ['C'] + ['M'] == ['C', 'M'];
    assert Reverse(['M']) == ['M'];
    assert [] + ['M'] == ['M'];
    assert [['C', 'M'], [], ['P', 'D', 'N', 'Z']][0 := ['C']][1 := ['M']] == [['C'], ['M'], ['P', 'D', 'N', 'Z']];
    ExampleStep([['C', 'M'], [], ['P', 'D', 'N', 'Z']], Instruction(1, 1, 2), true, ['C'], ['M'], ['M'], [['C'], ['M'], ['P', 'D', 'N', 'Z']]);
  }

  /** The example run with `execute`: the final stacks and their message. */
  lemma ExampleRunP1()
    ensures Run([['Z', 'N'], ['M', 'C', 'D'], ['P']], ExampleProgram(), true) == Some([['C'], ['M'], ['P', 'D', 'N', 'Z']])
    ensures Tops([['C'], ['M'], ['P', 'D', 'N', 'Z']]) == "CMZ"
  {
    var p := ExampleProgram();
    ExampleP1Step1();
    ExampleP1Step2();
    ExampleP1Step3();
    ExampleP1Step4();
    assert p[1..][1..][1..][1..] == [];
  }

  lemma ExampleP2Step1()
    ensures Moved([['Z', 'N'], ['M', 'C', 'D'], ['P']], Instruction(1, 2, 1), false) == [['Z', 'N', 'D'], ['M', 'C'], ['P']]
  {
    assert ['M', 'C'] + ['D'] == ['M', 'C', 'D'];
    assert ['Z', 'N'] + ['D'] == ['Z', 'N', 'D'];
    assert [['Z', 'N'], ['M', 'C', 'D'], ['P']][1 := ['M', 'C']][0 := ['Z', 'N', 'D']] == [['Z', 'N', 'D'], ['M', 'C'], ['P']];
    ExampleStep([['Z', 'N'], ['M', 'C', 'D'], ['P']], Instruction(1, 2, 1), false, ['M', 'C'], ['D'], ['Z', 'N', 'D'], [['Z', 'N', 'D'], ['M', 'C'], ['P']]);
  }

  lemma ExampleP2Step2()
    ensures Moved([['Z', 'N', 'D'], ['M', 'C'], ['P']], Instruction(3, 1, 3), false) == [[], ['M', 'C'], ['P', 'Z', 'N', 'D']]
  {
    assert [] + ['Z', 'N', 'D'] == ['Z', 'N', 'D'];
    assert ['P'] + ['Z', 'N', 'D'] == ['P', 'Z', 'N', 'D'];
    assert [['Z', 'N', 'D'], ['M', 'C'], ['P']][0 := []][2 := ['P', 'Z', 'N', 'D']] == [[], ['M', 'C'], ['P', 'Z', 'N', 'D']];
    ExampleStep([['Z', 'N', 'D'], ['M', 'C'], ['P']], Instruction(3, 1, 3), false, [], ['Z', 'N', 'D'], ['P', 'Z', 'N', 'D'], [[], ['M', 'C'], ['P', 'Z', 'N', 'D']]);
  }

  lemma ExampleP2Step3()
    ensures Moved([[], ['M', 'C'], ['P', 'Z', 'N', 'D']], Instruction(2, 2, 1), false) == [['M', 'C'], [], ['P', 'Z', 'N', 'D']]
  {
    assert [] + ['M', 'C'] == ['M', 'C'];
    assert [[], ['M', 'C'], ['P', 'Z', 'N', 'D']][1 := []][0 := ['M', 'C']] == [['M', 'C'], [], ['P', 'Z', 'N', 'D']];
    ExampleStep([[], ['M', 'C'], ['P', 'Z', 'N', 'D']], Instruction(2, 2, 1), false, [], ['M', 'C'], ['M', 'C'], [['M', 'C'], [], ['P', 'Z', 'N', 'D']]);
  }

  lemma ExampleP2Step4()
    ensures Moved([['M', 'C'], [], ['P', 'Z', 'N', 'D']], Instruction(1, 1, 2), false) == [['M'], ['C'], ['P', 'Z', 'N', 'D']]
  {
    assert ['M'] + ['C'] == ['M', 'C'];
    assert [] + ['C'] == ['C'];
    assert [['M', 'C'], [], ['P', 'Z', 'N', 'D']][0 := ['M']][1 := ['C']] == [['M'], ['C'], ['P', 'Z', 'N', 'D']];
    ExampleStep([['M', 'C'], [], ['P', 'Z', 'N', 'D']], Instruction(1, 1, 2), false, ['M'], ['C'], ['C'], [['M'], ['C'], ['P', 'Z', 'N', 'D']]);
  }

  /** Instructions `execute` carries out and `execute9001` panics on: two
      crates moved from a one-crate stack onto itself, and no crate moved
      between stacks that do not exist. */
  lemma CranesDiffer()
    ensures Run([['A']], [Instruction(2, 1, 1)], true) == Some([['A']])
    ensures Run([['A']], [Instruction(2, 1, 1)], false) == None
    ensures Run([[]], [Instruction(0, 9, 9)], true) == Some([[]])
    ensures Run([[]], [Instruction(0, 9, 9)], false) == None
  {
    assert [Instruction(2, 1, 1)][1..] == [] && [Instruction(0, 9, 9)][1..] == [];
  }

  /** The example run with `execute9001`: the final stacks and their message. */
  lemma ExampleRunP2()
    ensures Run([['Z', 'N'], ['M', 'C', 'D'], ['P']], ExampleProgram(), false) == Some([['M'], ['C'], ['P', 'Z', 'N', 'D']])
    ensures Tops([['M'], ['C'], ['P', 'Z', 'N', 'D']]) == "MCD"
  {
    var p := ExampleProgram();
    ExampleP2Step1();
    ExampleP2Step2();
    ExampleP2Step3();
    ExampleP2Step4();
    assert p[1..][1..][1..][1..] == [];
  }
}
