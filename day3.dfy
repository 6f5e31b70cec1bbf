/** Rucksack reorganisation: item priorities, the item found in both halves
    of a rucksack, and the badge shared by each group of three. */
module Day3 {
  import opened Wrappers
  import opened Text

  /** `priority`: a lower-case letter is measured from 'a' and gets 1
      onwards, every other character is measured from 'A' and gets 27
      onwards; a character below 'A' underflows the unsigned subtraction, a
      panic, modelled as `None`. Lower case here is ASCII 'a'..'z' only,
      where `char::is_lowercase` also accepts non-ASCII lower-case letters. */
  function Priority(c: char): (r: Option<nat>)
    ensures IsLower(c) ==> r.Some? && 1 <= r.value <= 26
    ensures IsUpper(c) ==> r.Some? && 27 <= r.value <= 52
    ensures c < 'A' ==> r.None?
  {
    if IsLower(c) then Some(c as int - 'a' as int + 1)
    else if c >= 'A' then Some(c as int - 'A' as int + 27)
    else None
  }

  /** Different letters have different priorities. */
  lemma PriorityInjective(a: char, b: char)
    requires IsAlphabetic(a) && IsAlphabetic(b) && a != b
    ensures Priority(a) != Priority(b)
  {
  }

  /** Every priority 1..52 belongs to some letter. */
  lemma PriorityOnto(p: nat)
    requires 1 <= p <= 52
    ensures exists c :: IsAlphabetic(c) && Priority(c) == Some(p)
  {
    if p <= 26 {
      var c := ('a' as int + p - 1) as char;
      assert IsLower(c) && Priority(c) == Some(p);
    } else {
      var c := ('A' as int + p - 27) as char;
      assert IsUpper(c) && Priority(c) == Some(p);
    }
  }

  /** The characters of a string, as the `BTreeSet` collected from them. */
  function CharSet(s: string): (r: set<char>)
    ensures forall c :: c in r <==> c in s
  {
    set i | 0 <= i < |s| :: s[i]
  }

  /** Every non-empty set of characters has a least element. */
  lemma {:induction false} LeastExists(s: set<char>)
    requires s != {}
    ensures exists m :: m in s && forall y :: y in s ==> m <= y
    decreases |s|
  {
    var x :| x in s;
    if s != {x} {
      var rest := s - {x};
      LeastExists(rest);
      var m :| m in rest && forall y :: y in rest ==> m <= y;
      var least := if x < m then x else m;
      forall y | y in s ensures least <= y {
        if y != x {
          assert y in rest;
        }
      }
    } else {
      assert forall y :: y in s ==> x <= y;
    }
  }

  /** The first element a `BTreeSet` yields: its least one. */
  function Least(s: set<char>): (m: char)
    requires s != {}
    ensures m in s && forall y :: y in s ==> m <= y
  {
    LeastExists(s);
    var m :| m in s && forall y :: y in s ==> m <= y;
    m
  }

  /** `p1::knapsack_compartments`: the characters of the two halves; an odd
      length fails the equal-length assertion. */
  function Compartments(knapsack: string): (r: Option<(set<char>, set<char>)>)
    ensures r.Some? <==> |knapsack| % 2 == 0
    ensures r.Some? ==> forall c :: c in r.value.0 <==> c in knapsack[..|knapsack| / 2]
    ensures r.Some? ==> forall c :: c in r.value.1 <==> c in knapsack[|knapsack| / 2..]
  {
    var half := |knapsack| / 2;
    if |knapsack| - half != half then None
    else Some((CharSet(knapsack[..half]), CharSet(knapsack[half..])))
  }

  /** `p1::dupe_item`: the least character in both compartments; `None` when
      they share nothing (the `unwrap` panic). */
  function DupeItem(c: (set<char>, set<char>)): (r: Option<char>)
    ensures r.Some? <==> c.0 * c.1 != {}
    ensures r.Some? ==> r.value in c.0 && r.value in c.1
    ensures r.Some? ==> forall y :: y in c.0 && y in c.1 ==> r.value <= y
  {
    var common := c.0 * c.1;
    assert forall y :: y in c.0 && y in c.1 ==> y in common;
    if common == {} then None else Some(Least(common))
  }

  /** The example of `test_dupe_item`. */
  lemma DupeItemExample()
    ensures DupeItem(({'a', 'b', 'c'}, {'c', 'd', 'e'})) == Some('c')
  {
    var common := {'a', 'b', 'c'} * {'c', 'd', 'e'};
    assert common == {'c'};
  }

  /** The priority of the item duplicated in one rucksack line. */
  function LineScoreP1(line: string): Option<nat> {
    match Compartments(line)
    case None => None
    case Some(c) =>
      match DupeItem(c)
      case None => None
      case Some(item) => Priority(item)
    }

  /** Sum over lines of a per-line score, failing if any line fails. */
  function SumP1(lines: seq<string>): (r: Option<nat>)
    ensures r.Some? <==> forall k :: 0 <= k < |lines| ==> LineScoreP1(lines[k]).Some?
  {
    if lines == [] then Some(0)
    else
      assert forall k :: 1 <= k < |lines| ==> lines[k] == lines[1..][k - 1];
      match (LineScoreP1(lines[0]), SumP1(lines[1..]))
      case (Some(a), Some(b)) => Some(a + b)
      case _ => None
  }

  /** `p1::solve`: an answer exactly when every line scores. */
  function SolveP1(input: string): (r: Option<nat>)
    ensures r.Some? <==> forall k :: 0 <= k < |Lines(Trim(input))| ==> LineScoreP1(Lines(Trim(input))[k]).Some?
  {
    SumP1(Lines(Trim(input)))
  }

  /** A rucksack of letters scores at most 52, so a total of letter-only
      rucksacks is at most 52 per line. */
  lemma {:induction false} SumP1Bound(lines: seq<string>)
    requires forall k, i :: 0 <= k < |lines| && 0 <= i < |lines[k]| ==> IsAlphabetic(lines[k][i])
    ensures SumP1(lines).Some? ==> SumP1(lines).value <= 52 * |lines|
  {
    if lines != [] {
      SumP1Bound(lines[1..]);
      var line := lines[0];
      match Compartments(line)
      case None =>
      case Some(c) =>
        match DupeItem(c)
        case None =>
        case Some(item) =>
          assert item in line[..|line| / 2];
          assert IsAlphabetic(item);
    }
  }

  /** A group of three rucksacks. */
  datatype Group = Group(first: set<char>, second: set<char>, third: set<char>)

  /** The rucksacks of a list of groups, in order. */
  function Flatten(groups: seq<Group>): (r: seq<set<char>>)
    ensures |r| == 3 * |groups|
  {
    if groups == [] then []
    else
      var g := groups[|groups| - 1];
      Flatten(groups[..|groups| - 1]) + [g.first, g.second, g.third]
  }

  /** `p2::groups`: consecutive triples of rucksacks; a count that is not a
      multiple of three ends in the `unwrap` panic, modelled as `None`. */
  method Groups(knapsacks: seq<set<char>>) returns (r: Option<seq<Group>>)
    ensures r.Some? <==> |knapsacks| % 3 == 0
    ensures r.Some? ==> Flatten(r.value) == knapsacks
  {
    var res: seq<Group> := [];
    var i := 0;
    while i < |knapsacks|
      invariant i <= |knapsacks| && i % 3 == 0
      invariant Flatten(res) == knapsacks[..i]
    {
      if i + 1 >= |knapsacks| || i + 2 >= |knapsacks| {
        return None;
      }
      var g := Group(knapsacks[i], knapsacks[i + 1], knapsacks[i + 2]);
      assert (res + [g])[..|res + [g]| - 1] == res;
      assert knapsacks[..i + 3] == knapsacks[..i] + [g.first, g.second, g.third];
      res := res + [g];
      i := i + 3;
    }
    assert knapsacks[..i] == knapsacks;
    return Some(res);
  }

  /** Group `j` of a flattened list is rucksacks 3j, 3j+1 and 3j+2. */
  lemma {:induction false} FlattenIndex(groups: seq<Group>, j: nat)
    requires j < |groups|
    ensures Flatten(groups)[3 * j] == groups[j].first
    ensures Flatten(groups)[3 * j + 1] == groups[j].second
    ensures Flatten(groups)[3 * j + 2] == groups[j].third
    decreases |groups|
  {
    var init := groups[..|groups| - 1];
    if j < |groups| - 1 {
      FlattenIndex(init, j);
      assert groups[j] == init[j];
    }
  }

  /** `p2::badge_for_group`: the least character in all three rucksacks. */
  function BadgeForGroup(g: Group): (r: Option<char>)
    ensures r.Some? <==> g.first * g.second * g.third != {}
    ensures r.Some? ==> r.value in g.first && r.value in g.second && r.value in g.third
    ensures r.Some? ==> forall y :: y in g.first && y in g.second && y in g.third ==> r.value <= y
  {
    var common := g.first * g.second * g.third;
    assert forall y :: y in g.first && y in g.second && y in g.third ==> y in common;
    if common == {} then None else Some(Least(common))
  }

  /** Sum of the badge priorities of a list of groups. */
  function SumP2(groups: seq<Group>): (r: Option<nat>)
    ensures r.Some? <==> forall k :: 0 <= k < |groups| ==>
      BadgeForGroup(groups[k]).Some? && Priority(BadgeForGroup(groups[k]).value).Some?
  {
    if groups == [] then Some(0)
    else
      assert forall k :: 1 <= k < |groups| ==> groups[k] == groups[1..][k - 1];
      var badge := BadgeForGroup(groups[0]);
      if badge.None? then None
      else match (Priority(badge.value), SumP2(groups[1..]))
        case (Some(a), Some(b)) => Some(a + b)
        case _ => None
  }

  /** `p2::solve`. */
  method SolveP2(input: string) returns (r: Option<nat>)
    ensures |Lines(Trim(input))| % 3 != 0 ==> r.None?
    ensures |Lines(Trim(input))| % 3 == 0 ==>
      exists groups :: Flatten(groups) == KnapsackSets(Lines(Trim(input))) && SumP2(groups) == r
  {
    var sets := KnapsackSets(Lines(Trim(input)));
    var groups := Groups(sets);
    if groups.None? {
      return None;
    }
    r := SumP2(groups.value);
    assert Flatten(groups.value) == sets && SumP2(groups.value) == r;
  }

  /** The grouping of a rucksack list is unique, so `SolveP2` names one sum. */
  lemma {:induction false} FlattenInjective(g1: seq<Group>, g2: seq<Group>)
    requires Flatten(g1) == Flatten(g2)
    ensures g1 == g2
  {
    assert |g1| == |g2|;
    forall j | 0 <= j < |g1|
      ensures g1[j] == g2[j]
    {
      FlattenIndex(g1, j);
      FlattenIndex(g2, j);
    }
  }

  /** `knapsack_set` applied to every line. */
  function KnapsackSets(lines: seq<string>): (r: seq<set<char>>)
    ensures |r| == |lines|
    ensures forall k :: 0 <= k < |lines| ==> r[k] == CharSet(lines[k])
  {
    seq(|lines|, k requires 0 <= k < |lines| => CharSet(lines[k]))
  }
}
