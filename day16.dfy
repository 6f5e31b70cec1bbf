/** Day 16: a network of valves joined by tunnels, and the most pressure that
    opening valves can release before time runs out. */
module Day16 {
  import opened Wrappers
  import opened Text

  /** A valve: its label, its flow rate and the valves its tunnels lead to. */
  datatype Node = Node(id: string, rate: nat, edges: seq<string>)

  // Parsing

  const Many := "tunnels lead to valves "
  const One := "tunnel leads to valve "

  /** `str::trim_start_matches` with a non-empty pattern: every leading copy
      of `pat` removed. */
  function TrimStartMatches(s: string, pat: string): (r: string)
    requires |pat| > 0
    ensures |r| <= |s| && r == s[|s| - |r|..]
    ensures !(pat <= r)
    decreases |s|
  {
    if pat <= s then TrimStartMatches(s[|pat|..], pat) else s
  }

  /** `Node::parse`: `Valve <id> has flow rate=<rate>; ` followed by either
      phrasing of the tunnel list, then the labels separated by `, `. A
      missing piece or a malformed rate is a panic, `None`. */
  function ParseNode(s: string): (r: Option<Node>) {
    match StripPrefix(s, "Valve ")
    case None => None
    case Some(s1) =>
      match SplitOnce(s1, " ")
      case None => None
      case Some((id, s2)) =>
        match StripPrefix(s2, "has flow rate=")
        case None => None
        case Some(s3) =>
          match SplitOnce(s3, "; ")
          case None => None
          case Some((rateText, s4)) =>
            match ParseNat(rateText)
            case None => None
            case Some(rate) =>
              var s5 := TrimStart(TrimStartMatches(TrimStartMatches(s4, Many), One));
              Some(Node(id, rate, Split(s5, ", ")))
  }

  /** A valve label as the puzzle writes them: capital letters. */
  predicate IsLabel(l: string) {
    l != [] && forall i :: 0 <= i < |l| ==> IsUpper(l[i])
  }

  /** A valve the puzzle can describe: labels everywhere and at least one
      tunnel. */
  predicate WellFormed(n: Node) {
    IsLabel(n.id) && |n.edges| >= 1 && forall k :: 0 <= k < |n.edges| ==> IsLabel(n.edges[k])
  }

  /** The tunnel phrase, singular for a single tunnel. */
  function Phrase(edges: seq<string>): string {
    if |edges| == 1 then One else Many
  }

  /** A valve line written as the puzzle writes it. */
  function NodeText(n: Node): string {
    "Valve " + (n.id + " " + RateText(n))
  }

  lemma JoinStartsWithLabel(edges: seq<string>)
    requires |edges| >= 1 && IsLabel(edges[0])
    ensures Join(edges, ", ") != [] && IsUpper(Join(edges, ", ")[0])
  {
    if |edges| > 1 {
      JoinCons(edges[0], edges[1..], ", ");
      assert edges == [edges[0]] + edges[1..];
    }
  }

  lemma TrimStartMatchesNone(s: string, pat: string)
    requires |pat| > 0 && !(pat <= s)
    ensures TrimStartMatches(s, pat) == s
  {
  }

  lemma TrimStartMatchesOnce(pat: string, s: string)
    requires |pat| > 0 && !(pat <= s)
    ensures TrimStartMatches(pat + s, pat) == s
  {
    assert pat <= pat + s;
    assert (pat + s)[|pat|..] == s;
    TrimStartMatchesNone(s, pat);
  }

  /** Neither phrasing, nor whitespace, starts a text that starts with a
      capital letter. */
  lemma UpperAvoidsPhrases(j: string)
    requires j != [] && IsUpper(j[0])
    ensures !(Many <= j) && !(One <= j)
    ensures TrimStart(j) == j
  {
    assert Many[0] == 't' && One[0] == 't';
    assert !IsWhitespace(j[0]);
  }

  /** The singular phrase is not the plural one. */
  lemma OneIsNotMany(j: string)
    ensures !(Many <= One + j)
  {
    assert (One + j)[6] == ' ' && Many[6] == 's';
  }

  /** Both phrasings are dropped in front of a list of labels. */
  lemma PhraseDropped(edges: seq<string>)
    requires |edges| >= 1 && IsLabel(edges[0])
    ensures TrimStart(TrimStartMatches(TrimStartMatches(Phrase(edges) + Join(edges, ", "), Many), One))
      == Join(edges, ", ")
  {
    var j := Join(edges, ", ");
    JoinStartsWithLabel(edges);
    UpperAvoidsPhrases(j);
    if |edges| == 1 {
      OneIsNotMany(j);
      TrimStartMatchesNone(One + j, Many);
      TrimStartMatchesOnce(One, j);
    } else {
      TrimStartMatchesOnce(Many, j);
      TrimStartMatchesNone(j, One);
    }
  }

  lemma LabelAvoids(l: string, c: char)
    requires IsLabel(l) && !IsUpper(c)
    ensures c !in l
  {
    forall i | 0 <= i < |l|
      ensures l[i] != c
    {
    }
  }

  lemma StripPrefixOf(p: string, s: string)
    ensures StripPrefix(p + s, p) == Some(s)
  {
    assert (p + s)[|p|..] == s;
  }

  /** What follows `; ` in a written valve line: the tunnel list. */
  function EdgesText(n: Node): string {
    Phrase(n.edges) + Join(n.edges, ", ")
  }

  /** What follows the label in a written valve line. */
  function RateText(n: Node): string {
    "has flow rate=" + (NatToString(n.rate) + "; " + EdgesText(n))
  }

  /** The rate and the tunnel list are read back from their text. */
  lemma RateTextParses(n: Node)
    requires WellFormed(n)
    ensures StripPrefix(RateText(n), "has flow rate=") == Some(NatToString(n.rate) + "; " + EdgesText(n))
    ensures SplitOnce(NatToString(n.rate) + "; " + EdgesText(n), "; ") == Some((NatToString(n.rate), EdgesText(n)))
    ensures ParseNat(NatToString(n.rate)) == Some(n.rate)
  {
    var rate := NatToString(n.rate);
    StripPrefixOf("has flow rate=", rate + "; " + EdgesText(n));
    assert ';' !in rate by {
      assert AllDigits(rate);
    }
    SplitOnceAfter(rate, "; ", EdgesText(n));
    ParseNatToString(n.rate);
  }

  /** The tunnel list is read back from its text. */
  lemma EdgesTextParses(n: Node)
    requires WellFormed(n)
    ensures Split(TrimStart(TrimStartMatches(TrimStartMatches(EdgesText(n), Many), One)), ", ") == n.edges
  {
    PhraseDropped(n.edges);
    forall k | 0 <= k < |n.edges|
      ensures ',' !in n.edges[k]
    {
      LabelAvoids(n.edges[k], ',');
    }
    SplitJoin(n.edges, ", ");
  }

  /** A written valve line parses back to the valve. */
  lemma NodeRoundTrip(n: Node)
    requires WellFormed(n)
    ensures ParseNode(NodeText(n)) == Some(n)
  {
    StripPrefixOf("Valve ", n.id + " " + RateText(n));
    LabelAvoids(n.id, ' ');
    SplitOnceAfter(n.id, " ", RateText(n));
    RateTextParses(n);
    EdgesTextParses(n);
  }

  /** `s.trim()` then `Node::parse`: one input line as a valve. */
  function ParseLine(line: string): Option<Node> {
    ParseNode(Trim(line))
  }

  /** Every line parsed as a valve, `None` when one is malformed. */
  function ScanNodes(input: string): (r: Option<seq<Node>>)
    ensures r.Some? ==> |r.value| == |Lines(input)|
    ensures r.Some? ==> forall k :: 0 <= k < |r.value| ==> ParseLine(Lines(input)[k]) == Some(r.value[k])
  {
    var lines := Lines(input);
    Collect(seq(|lines|, k requires 0 <= k < |lines| => ParseLine(lines[k])))
  }

  /** `collect()` into a `HashMap` keyed by label: a later valve with the
      same label replaces an earlier one. */
  function NodeMap(nodes: seq<Node>): map<string, Node> {
    if nodes == [] then map[]
    else NodeMap(nodes[..|nodes| - 1])[nodes[|nodes| - 1].id := nodes[|nodes| - 1]]
  }

  /** The map's labels are exactly the labels of the valves. */
  lemma {:induction false} NodeMapKeys(nodes: seq<Node>, id: string)
    ensures id in NodeMap(nodes) <==> exists k :: 0 <= k < |nodes| && nodes[k].id == id
  {
    if nodes != [] {
      var init := nodes[..|nodes| - 1];
      NodeMapKeys(init, id);
      if id in NodeMap(nodes) && id != nodes[|nodes| - 1].id {
        var k :| 0 <= k < |init| && init[k].id == id;
        assert nodes[k] == init[k];
      }
      if exists k :: 0 <= k < |nodes| && nodes[k].id == id {
        var k :| 0 <= k < |nodes| && nodes[k].id == id;
        if k < |init| {
          assert init[k] == nodes[k];
        }
      }
    }
  }

  /** The valve stored under a label is the last valve with that label. */
  lemma {:induction false} NodeMapLast(nodes: seq<Node>, k: nat)
    requires k < |nodes| && LastWithId(nodes, k)
    ensures nodes[k].id in NodeMap(nodes) && NodeMap(nodes)[nodes[k].id] == nodes[k]
  {
    var init := nodes[..|nodes| - 1];
    if k < |init| {
      assert init[k] == nodes[k];
      assert nodes[|nodes| - 1].id != nodes[k].id;
      forall j | k < j < |init|
        ensures init[j].id != init[k].id
      {
        assert init[j] == nodes[j];
      }
      NodeMapLast(init, k);
    }
  }

  /** No later valve has the label of valve `k`. */
  predicate LastWithId(nodes: seq<Node>, k: nat)
    requires k < |nodes|
  {
    forall j :: k < j < |nodes| ==> nodes[j].id != nodes[k].id
  }

  // Part 1: the most pressure in 30 minutes

  /** `p1::max_addtl_possible`: the most pressure still to be released from
      `pos` with `t` minutes left and the valves of `enabled` already open.
      Opening the valve here, when it has a rate and is shut, takes a minute
      and releases `rate * (t - 1)`; each tunnel takes a minute. A label
      missing from the map is a panic, `None`. */
  function MaxAddtl(nodes: map<string, Node>, enabled: set<string>, pos: string, t: nat): (r: Option<nat>)
    decreases t, 1
  {
    if t == 0 then Some(0)
    else if pos !in nodes then None
    else
      match OpenScore(nodes, enabled, pos, t)
      case None => None
      case Some(best) => MaxFold(best, EdgeScores(nodes, enabled, pos, t))
  }

  /** The score of opening the valve at `pos` first, 0 when it cannot be
      opened. */
  function OpenScore(nodes: map<string, Node>, enabled: set<string>, pos: string, t: nat): Option<nat>
    requires pos in nodes && t > 0
    decreases t, 0
  {
    if nodes[pos].rate > 0 && pos !in enabled then
      match MaxAddtl(nodes, enabled + {pos}, pos, t - 1)
      case None => None
      case Some(v) => Some(nodes[pos].rate * (t - 1) + v)
    else Some(0)
  }

  /** The scores of taking each tunnel from `pos` first. */
  function EdgeScores(nodes: map<string, Node>, enabled: set<string>, pos: string, t: nat): seq<Option<nat>>
    requires pos in nodes && t > 0
    decreases t, 0
  {
    seq(|nodes[pos].edges|, k requires 0 <= k < |nodes[pos].edges| => MaxAddtl(nodes, enabled, nodes[pos].edges[k], t - 1))
  }

  /** The loop over `node.edges` in `max_addtl_possible`: the larger of
      `best` and every score, `None` when one of them panicked. */
  function MaxFold(best: nat, scores: seq<Option<nat>>): (r: Option<nat>)
    decreases |scores|
    ensures r.None? <==> exists k :: 0 <= k < |scores| && scores[k].None?
    ensures r.Some? ==> best <= r.value && forall k :: 0 <= k < |scores| ==> scores[k].value <= r.value
    ensures r.Some? ==> r.value == best || exists k :: 0 <= k < |scores| && scores[k] == r
  {
    if scores == [] then Some(best)
    else
      match scores[0]
      case None => None
      case Some(score) =>
        var r := MaxFold(if score > best then score else best, scores[1..]);
        assert forall k :: 1 <= k < |scores| ==> scores[k] == scores[1..][k - 1];
        r
  }

  /** One minute's choice: open the valve here, or take a tunnel. */
  datatype Action = Open | Move(to: string)

  /** The pressure a plan of actions releases from `pos` with `t` minutes
      left, `None` when the plan is not allowed: more actions than minutes, an
      unknown valve, opening a valve that is open or has no flow, or taking a
      tunnel that is not there. */
  function Released(nodes: map<string, Node>, enabled: set<string>, pos: string, t: nat, plan: seq<Action>)
    : Option<nat>
    decreases plan
  {
    if plan == [] then Some(0)
    else if t == 0 || pos !in nodes then None
    else
      match plan[0]
      case Open =>
        if nodes[pos].rate > 0 && pos !in enabled then
          (match Released(nodes, enabled + {pos}, pos, t - 1, plan[1..])
           case None => None
           case Some(v) => Some(nodes[pos].rate * (t - 1) + v))
        else None
      case Move(e) =>
        if e in nodes[pos].edges then Released(nodes, enabled, e, t - 1, plan[1..]) else None
  }

  /** Whether the valve at `pos` can be opened now. */
  predicate CanOpen(nodes: map<string, Node>, enabled: set<string>, pos: string) {
    pos in nodes && nodes[pos].rate > 0 && pos !in enabled
  }

  /** Opening the valve here first scores no more than the search. */
  lemma OpenBound(nodes: map<string, Node>, enabled: set<string>, pos: string, t: nat)
    requires t > 0 && MaxAddtl(nodes, enabled, pos, t).Some? && CanOpen(nodes, enabled, pos)
    ensures MaxAddtl(nodes, enabled + {pos}, pos, t - 1).Some?
    ensures nodes[pos].rate * (t - 1) + MaxAddtl(nodes, enabled + {pos}, pos, t - 1).value
      <= MaxAddtl(nodes, enabled, pos, t).value
  {
  }

  /** Taking a tunnel first scores no more than the search. */
  lemma EdgeBound(nodes: map<string, Node>, enabled: set<string>, pos: string, t: nat, e: string)
    requires t > 0 && MaxAddtl(nodes, enabled, pos, t).Some? && pos in nodes && e in nodes[pos].edges
    ensures MaxAddtl(nodes, enabled, e, t - 1).Some?
    ensures MaxAddtl(nodes, enabled, e, t - 1).value <= MaxAddtl(nodes, enabled, pos, t).value
  {
    var scores := EdgeScores(nodes, enabled, pos, t);
    var k :| 0 <= k < |nodes[pos].edges| && nodes[pos].edges[k] == e;
    assert scores[k] == MaxAddtl(nodes, enabled, e, t - 1);
  }

  /** The search result is one of the options: opening the valve, stopping
      (worth 0) when it cannot be opened, or a tunnel. */
  lemma StepAttained(nodes: map<string, Node>, enabled: set<string>, pos: string, t: nat)
    requires t > 0 && MaxAddtl(nodes, enabled, pos, t).Some?
    ensures pos in nodes
    ensures || (CanOpen(nodes, enabled, pos)
                && MaxAddtl(nodes, enabled + {pos}, pos, t - 1).Some?
                && MaxAddtl(nodes, enabled, pos, t).value
                   == nodes[pos].rate * (t - 1) + MaxAddtl(nodes, enabled + {pos}, pos, t - 1).value)
            || (!CanOpen(nodes, enabled, pos) && MaxAddtl(nodes, enabled, pos, t).value == 0)
            || exists e :: e in nodes[pos].edges && MaxAddtl(nodes, enabled, e, t - 1) == MaxAddtl(nodes, enabled, pos, t)
  {
    var best := OpenScore(nodes, enabled, pos, t).value;
    var scores := EdgeScores(nodes, enabled, pos, t);
    if MaxAddtl(nodes, enabled, pos, t).value != best {
      var k :| 0 <= k < |scores| && scores[k] == MaxAddtl(nodes, enabled, pos, t);
      assert nodes[pos].edges[k] in nodes[pos].edges;
    }
  }

  /** No plan releases more than `MaxAddtl`. */
  lemma {:induction false} PlanBound(nodes: map<string, Node>, enabled: set<string>, pos: string, t: nat,
                                     plan: seq<Action>)
    requires MaxAddtl(nodes, enabled, pos, t).Some? && Released(nodes, enabled, pos, t, plan).Some?
    ensures Released(nodes, enabled, pos, t, plan).value <= MaxAddtl(nodes, enabled, pos, t).value
    decreases plan
  {
    if plan != [] {
      match plan[0]
      case Open =>
        OpenBound(nodes, enabled, pos, t);
        PlanBound(nodes, enabled + {pos}, pos, t - 1, plan[1..]);
      case Move(e) =>
        EdgeBound(nodes, enabled, pos, t, e);
        PlanBound(nodes, enabled, e, t - 1, plan[1..]);
    }
  }

  /** Some plan releases exactly `MaxAddtl`. */
  lemma {:induction false} PlanAttains(nodes: map<string, Node>, enabled: set<string>, pos: string, t: nat)
    returns (plan: seq<Action>)
    requires MaxAddtl(nodes, enabled, pos, t).Some?
    ensures |plan| <= t && Released(nodes, enabled, pos, t, plan) == MaxAddtl(nodes, enabled, pos, t)
    decreases t
  {
    if t == 0 {
      plan := [];
    } else {
      StepAttained(nodes, enabled, pos, t);
      var m := MaxAddtl(nodes, enabled, pos, t).value;
      if CanOpen(nodes, enabled, pos) && m == nodes[pos].rate * (t - 1) + MaxAddtl(nodes, enabled + {pos}, pos, t - 1).value {
        var rest := PlanAttains(nodes, enabled + {pos}, pos, t - 1);
        plan := [Open] + rest;
        assert plan[1..] == rest;
      } else if !CanOpen(nodes, enabled, pos) && m == 0 {
        plan := [];
      } else {
        var e :| e in nodes[pos].edges && MaxAddtl(nodes, enabled, e, t - 1) == Some(m);
        var rest := PlanAttains(nodes, enabled, e, t - 1);
        plan := [Move(e)] + rest;
        assert plan[1..] == rest;
      }
    }
  }

  /** Every tunnel leads to a valve of the map. */
  ghost predicate Closed(nodes: map<string, Node>) {
    forall id, e :: id in nodes && e in nodes[id].edges ==> e in nodes
  }

  /** In a closed map the search from a known valve never panics. */
  lemma {:induction false} MaxAddtlDefined(nodes: map<string, Node>, enabled: set<string>, pos: string, t: nat)
    requires Closed(nodes) && pos in nodes
    ensures MaxAddtl(nodes, enabled, pos, t).Some?
    decreases t
  {
    if t > 0 {
      var node := nodes[pos];
      if node.rate > 0 && pos !in enabled {
        MaxAddtlDefined(nodes, enabled + {pos}, pos, t - 1);
      }
      var scores := EdgeScores(nodes, enabled, pos, t);
      forall k | 0 <= k < |node.edges|
        ensures scores[k].Some?
      {
        assert node.edges[k] in node.edges;
        MaxAddtlDefined(nodes, enabled, node.edges[k], t - 1);
      }
    }
  }

  /** In a closed map with valve `AA` the search is defined. */
  lemma SolvableWhenClosed(nodes: map<string, Node>)
    ensures Closed(nodes) && "AA" in nodes ==> MaxAddtl(nodes, {}, "AA", 30).Some?
  {
    if Closed(nodes) && "AA" in nodes {
      MaxAddtlDefined(nodes, {}, "AA", 30);
    }
  }

  /** The search result is the pressure of the best plan. */
  lemma {:induction false} Optimal(nodes: map<string, Node>, enabled: set<string>, pos: string, t: nat)
    requires MaxAddtl(nodes, enabled, pos, t).Some?
    ensures exists plan :: Released(nodes, enabled, pos, t, plan) == MaxAddtl(nodes, enabled, pos, t)
    ensures forall plan :: (Released(nodes, enabled, pos, t, plan).Some?
      ==> Released(nodes, enabled, pos, t, plan).value <= MaxAddtl(nodes, enabled, pos, t).value)
  {
    var best := PlanAttains(nodes, enabled, pos, t);
    forall plan | Released(nodes, enabled, pos, t, plan).Some?
      ensures Released(nodes, enabled, pos, t, plan).value <= MaxAddtl(nodes, enabled, pos, t).value
    {
      PlanBound(nodes, enabled, pos, t, plan);
    }
  }

  /** `p1::solve`: the search from valve `AA` with every valve shut and 30
      minutes left; `None` when a line is malformed or a label is
      missing. */
  function SolveP1(input: string): (r: Option<nat>)
    ensures r.Some? ==> ScanNodes(input).Some? && r == MaxAddtl(NodeMap(ScanNodes(input).value), {}, "AA", 30)
    ensures ScanNodes(input).Some? && Closed(NodeMap(ScanNodes(input).value)) && "AA" in NodeMap(ScanNodes(input).value)
      ==> r.Some?
  {
    match ScanNodes(input)
    case None => None
    case Some(list) =>
      SolvableWhenClosed(NodeMap(list));
      MaxAddtl(NodeMap(list), {}, "AA", 30)
  }

  /** The answer of `p1::solve` is the pressure of the best 30-minute plan
      from `AA`. */
  lemma SolveP1Optimal(input: string, list: seq<Node>)
    requires ScanNodes(input) == Some(list) && SolveP1(input).Some?
    ensures exists plan :: Released(NodeMap(list), {}, "AA", 30, plan) == SolveP1(input)
    ensures forall plan :: (Released(NodeMap(list), {}, "AA", 30, plan).Some?
              ==> Released(NodeMap(list), {}, "AA", 30, plan).value <= SolveP1(input).value)
  {
    Optimal(NodeMap(list), {}, "AA", 30);
  }
}
