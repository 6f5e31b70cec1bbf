/** Calorie counting: each line of the input is a number, and blank lines
    separate the groups carried by different elves. */
module Day1 {
  import opened Wrappers
  import opened Text

  /** One line of `p1::parse`: a line that is blank after trimming becomes
      `Some(None)` (a group separator), a number `Some(Some(n))`; anything
      else is the panic of `unwrap`, `None`. */
  function ParseLine(line: string): (r: Option<Option<nat>>)
    ensures r == Some(None) <==> Trim(line) == []
    ensures Trim(line) != [] ==> r == (match ParseNat(Trim(line)) case Some(n) => Some(Some(n)) case None => None)
  {
    var l := Trim(line);
    if l == [] then Some(None)
    else match ParseNat(l) case Some(n) => Some(Some(n)) case None => None
  }

  /** `p1::parse` on the lines of the input: fails iff some line fails. */
  function ParseLines(lines: seq<string>): (r: Option<seq<Option<nat>>>)
    ensures r.Some? <==> forall k :: 0 <= k < |lines| ==> ParseLine(lines[k]).Some?
    ensures r.Some? ==> |r.value| == |lines|
    ensures r.Some? ==> forall k :: 0 <= k < |lines| ==> ParseLine(lines[k]) == Some(r.value[k])
  {
    if lines == [] then Some([])
    else
      var rest := ParseLines(lines[1..]);
      assert forall k :: 1 <= k < |lines| ==> lines[k] == lines[1..][k - 1];
      match ParseLine(lines[0])
      case None => None
      case Some(head) =>
        if rest.None? then None else Some([head] + rest.value)
  }

  /** `p1::parse`. */
  function Parse(s: string): Option<seq<Option<nat>>> {
    ParseLines(Lines(s))
  }

  /** `slice::split(Option::is_none)`: the runs of numbers between `None`
      entries; there is always at least one run, possibly empty. */
  function Groups(input: seq<Option<nat>>): (r: seq<seq<nat>>)
    ensures |r| >= 1
  {
    if input == [] then [[]]
    else
      var rest := Groups(input[1..]);
      match input[0]
      case None => [[]] + rest
      case Some(n) => [[n] + rest[0]] + rest[1..]
  }

  function Sum(s: seq<nat>): nat {
    if s == [] then 0 else s[0] + Sum(s[1..])
  }

  /** Number of group separators. */
  function SeparatorCount(input: seq<Option<nat>>): nat {
    if input == [] then 0 else (if input[0].None? then 1 else 0) + SeparatorCount(input[1..])
  }

  /** Sum of every number in the parsed input. */
  function SumOfNumbers(input: seq<Option<nat>>): nat {
    if input == [] then 0 else input[0].GetOr(0) + SumOfNumbers(input[1..])
  }

  /** Sum of the totals of a list of groups. */
  function SumOfGroups(groups: seq<seq<nat>>): nat {
    if groups == [] then 0 else Sum(groups[0]) + SumOfGroups(groups[1..])
  }

  /** There is one group more than there are separators. */
  lemma {:induction false} GroupsCount(input: seq<Option<nat>>)
    ensures |Groups(input)| == SeparatorCount(input) + 1
  {
    if input != [] {
      GroupsCount(input[1..]);
    }
  }

  lemma SumOfGroupsCons(g: seq<nat>, gs: seq<seq<nat>>)
    ensures SumOfGroups([g] + gs) == Sum(g) + SumOfGroups(gs)
  {
    assert ([g] + gs)[1..] == gs;
  }

  /** Grouping neither loses nor invents a number. */
  lemma {:induction false} GroupsSum(input: seq<Option<nat>>)
    ensures SumOfGroups(Groups(input)) == SumOfNumbers(input)
  {
    if input != [] {
      GroupsSum(input[1..]);
      var rest := Groups(input[1..]);
      match input[0]
      case None =>
        SumOfGroupsCons([], rest);
      case Some(n) =>
        assert rest == [rest[0]] + rest[1..];
        SumOfGroupsCons(rest[0], rest[1..]);
        SumOfGroupsCons([n] + rest[0], rest[1..]);
        assert ([n] + rest[0])[1..] == rest[0];
    }
  }

  /** `p1::totals`: the sum of each group, in order. */
  method Totals(input: seq<Option<nat>>) returns (res: seq<nat>)
    ensures |res| == |Groups(input)| == SeparatorCount(input) + 1
    ensures forall k :: 0 <= k < |res| ==> res[k] == Sum(Groups(input)[k])
    ensures Sum(res) == SumOfNumbers(input)
  {
    var groups := Groups(input);
    res := [];
    for i := 0 to |groups|
      invariant |res| == i
      invariant forall k :: 0 <= k < i ==> res[k] == Sum(groups[k])
    {
      res := res + [Sum(groups[i])];
    }
    GroupsCount(input);
    GroupsSum(input);
    TotalsSum(res, groups);
  }

  lemma {:induction false} TotalsSum(res: seq<nat>, groups: seq<seq<nat>>)
    requires |res| == |groups|
    requires forall k :: 0 <= k < |res| ==> res[k] == Sum(groups[k])
    ensures Sum(res) == SumOfGroups(groups)
  {
    if res != [] {
      TotalsSum(res[1..], groups[1..]);
    }
  }
}
