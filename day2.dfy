/** Rock paper scissors: the outcome and score tables, and the two ways of
    reading the strategy guide. */
module Day2 {
  import opened Wrappers
  import opened Text

  datatype Shape = Rock | Paper | Scissors
  datatype Outcome = Win | Lose | Draw

  /** `RPS::score`. */
  function ShapeScore(s: Shape): (r: nat)
    ensures 1 <= r <= 3
  {
    match s
    case Rock => 1
    case Paper => 2
    case Scissors => 3
  }

  /** `Outcome::score`. */
  function OutcomeScore(o: Outcome): (r: nat)
    ensures r % 3 == 0 && r <= 6
  {
    match o
    case Win => 6
    case Lose => 0
    case Draw => 3
  }

  /** `RPS::outcome_vs`: the outcome for the player throwing `mine`; equal
      shapes draw. */
  function OutcomeVs(mine: Shape, theirs: Shape): (r: Outcome)
    ensures r == Draw <==> mine == theirs
  {
    match (mine, theirs)
    case (Rock, Rock) => Draw
    case (Rock, Paper) => Lose
    case (Rock, Scissors) => Win
    case (Paper, Rock) => Win
    case (Paper, Paper) => Draw
    case (Paper, Scissors) => Lose
    case (Scissors, Rock) => Lose
    case (Scissors, Paper) => Win
    case (Scissors, Scissors) => Draw
  }

  /** `RPS::score_vs`. */
  function ScoreVs(mine: Shape, theirs: Shape): (r: nat)
    ensures 1 <= r <= 9
  {
    ShapeScore(mine) + OutcomeScore(OutcomeVs(mine, theirs))
  }

  /** `RPS::to_throw_for_outcome`: the shape to throw against `theirs` to get `outcome`. */
  function ToThrowForOutcome(theirs: Shape, outcome: Outcome): (r: Shape)
    ensures OutcomeVs(r, theirs) == outcome
  {
    match (theirs, outcome)
    case (Rock, Win) => Paper
    case (Rock, Lose) => Scissors
    case (Rock, Draw) => Rock
    case (Paper, Win) => Scissors
    case (Paper, Lose) => Rock
    case (Paper, Draw) => Paper
    case (Scissors, Win) => Rock
    case (Scissors, Lose) => Paper
    case (Scissors, Draw) => Scissors
  }

  /** The cyclic rule the table encodes, as a reference: rock, paper and
      scissors are 0, 1 and 2, and a shape beats the one just below it mod 3. */
  function Ordinal(s: Shape): nat {
    match s
    case Rock => 0
    case Paper => 1
    case Scissors => 2
  }

  predicate Beats(a: Shape, b: Shape) {
    (Ordinal(a) - Ordinal(b)) % 3 == 1
  }

  /** The outcome table agrees with the cyclic rule. */
  lemma OutcomeVsIsCyclicRule(a: Shape, b: Shape)
    ensures OutcomeVs(a, b) == Win <==> Beats(a, b)
    ensures OutcomeVs(a, b) == Lose <==> Beats(b, a)
    ensures OutcomeVs(a, b) == Draw <==> a == b
  {
  }

  /** Swapping the players swaps win and loss. */
  lemma OutcomeVsSwap(a: Shape, b: Shape)
    ensures OutcomeVs(a, b) == Win <==> OutcomeVs(b, a) == Lose
    ensures OutcomeVs(a, b) == Draw <==> OutcomeVs(b, a) == Draw
  {
  }

  /** The throw for an outcome is the only shape with that outcome. */
  lemma ToThrowForOutcomeUnique(theirs: Shape, outcome: Outcome, s: Shape)
    ensures OutcomeVs(s, theirs) == outcome <==> s == ToThrowForOutcome(theirs, outcome)
  {
  }

  /** `p1::parse_line`: the first characters of the first two
      whitespace-separated tokens, A/B/C for their shape and X/Y/Z for mine;
      any other letter, or a missing token, is a panic. */
  function ParseLineP1(line: string): (r: Option<(Shape, Shape)>)
  {
    var tokens := SplitWhitespace(line);
    if |tokens| < 2 then None
    else
      match (TheirShape(tokens[0][0]), MyShape(tokens[1][0]))
      case (Some(theirs), Some(mine)) => Some((theirs, mine))
      case _ => None
  }

  function TheirShape(c: char): Option<Shape> {
    if c == 'A' then Some(Rock)
    else if c == 'B' then Some(Paper)
    else if c == 'C' then Some(Scissors)
    else None
  }

  function MyShape(c: char): Option<Shape> {
    if c == 'X' then Some(Rock)
    else if c == 'Y' then Some(Paper)
    else if c == 'Z' then Some(Scissors)
    else None
  }

  function TheirLetter(s: Shape): char {
    match s
    case Rock => 'A'
    case Paper => 'B'
    case Scissors => 'C'
  }

  function MyLetter(s: Shape): char {
    match s
    case Rock => 'X'
    case Paper => 'Y'
    case Scissors => 'Z'
  }

  function OutcomeLetter(o: Outcome): char {
    match o
    case Lose => 'X'
    case Draw => 'Y'
    case Win => 'Z'
  }

  /** `p2::parse_line`: as in part 1, but X/Y/Z name the outcome to reach. */
  function ParseLineP2(line: string): (r: Option<(Shape, Outcome)>)
  {
    var tokens := SplitWhitespace(line);
    if |tokens| < 2 then None
    else
      match (TheirShape(tokens[0][0]), OutcomeFor(tokens[1][0]))
      case (Some(theirs), Some(outcome)) => Some((theirs, outcome))
      case _ => None
  }

  function OutcomeFor(c: char): Option<Outcome> {
    if c == 'X' then Some(Lose)
    else if c == 'Y' then Some(Draw)
    else if c == 'Z' then Some(Win)
    else None
  }

  lemma SplitWhitespaceOfPair(a: char, b: char)
    requires !IsWhitespace(a) && !IsWhitespace(b)
    ensures SplitWhitespace([a, ' ', b]) == [[a], [b]]
  {
    SplitWhitespacePair([a], [b]);
    assert [a] + " " + [b] == [a, ' ', b];
  }

  /** Reading back a part-1 line written as "<their letter> <my letter>". */
  lemma ParseLineP1RoundTrip(theirs: Shape, mine: Shape)
    ensures ParseLineP1([TheirLetter(theirs), ' ', MyLetter(mine)]) == Some((theirs, mine))
  {
    SplitWhitespaceOfPair(TheirLetter(theirs), MyLetter(mine));
  }

  /** Reading back a part-2 line written as "<their letter> <outcome letter>". */
  lemma ParseLineP2RoundTrip(theirs: Shape, outcome: Outcome)
    ensures ParseLineP2([TheirLetter(theirs), ' ', OutcomeLetter(outcome)]) == Some((theirs, outcome))
  {
    SplitWhitespaceOfPair(TheirLetter(theirs), OutcomeLetter(outcome));
  }

  /** A letter outside A/B/C in their column makes the line fail. */
  lemma ParseLineRejectsBadLetter(line: string)
    requires |SplitWhitespace(line)| >= 2
    requires SplitWhitespace(line)[0][0] !in ['A', 'B', 'C']
    ensures ParseLineP1(line).None? && ParseLineP2(line).None?
  {
  }

  /** `p2::score_line`: the score of the throw that reaches `outcome`. */
  function ScoreLine(theirs: Shape, outcome: Outcome): (r: nat)
    ensures r == ScoreVs(ToThrowForOutcome(theirs, outcome), theirs)
  {
    ShapeScore(ToThrowForOutcome(theirs, outcome)) + OutcomeScore(outcome)
  }

  lemma ScoreLineExamples()
    ensures ScoreLine(Rock, Draw) == 4
    ensures ScoreLine(Paper, Lose) == 1
    ensures ScoreLine(Scissors, Win) == 7
  {
  }

  /** Total score of a list of parsed part-1 rounds. */
  function TotalP1(rounds: seq<(Shape, Shape)>): nat {
    if rounds == [] then 0 else ScoreVs(rounds[0].1, rounds[0].0) + TotalP1(rounds[1..])
  }

  /** Total score of a list of parsed part-2 rounds. */
  function TotalP2(rounds: seq<(Shape, Outcome)>): nat {
    if rounds == [] then 0 else ScoreLine(rounds[0].0, rounds[0].1) + TotalP2(rounds[1..])
  }

  function ParseAllP1(lines: seq<string>): Option<seq<(Shape, Shape)>> {
    if lines == [] then Some([])
    else
      match (ParseLineP1(lines[0]), ParseAllP1(lines[1..]))
      case (Some(r), Some(rs)) => Some([r] + rs)
      case _ => None
  }

  function ParseAllP2(lines: seq<string>): Option<seq<(Shape, Outcome)>> {
    if lines == [] then Some([])
    else
      match (ParseLineP2(lines[0]), ParseAllP2(lines[1..]))
      case (Some(r), Some(rs)) => Some([r] + rs)
      case _ => None
  }

  /** `p1::solve`: an answer exactly when every line parses, at least 1 and
      at most 9 points per round. */
  function SolveP1(input: string): (r: Option<nat>)
    ensures r.Some? <==> ParseAllP1(Lines(Trim(input))).Some?
    ensures r.Some? ==> var n := |ParseAllP1(Lines(Trim(input))).value|; n <= r.value <= 9 * n
  {
    match ParseAllP1(Lines(Trim(input)))
    case Some(rounds) => TotalP1Bounds(rounds); Some(TotalP1(rounds))
    case None => None
  }

  /** `p2::solve`: an answer exactly when every line parses; it is the
      part-1 score of the throws each outcome calls for. */
  function SolveP2(input: string): (r: Option<nat>)
    ensures r.Some? <==> ParseAllP2(Lines(Trim(input))).Some?
    ensures r.Some? ==> r.value == TotalP1(Chosen(ParseAllP2(Lines(Trim(input))).value))
    ensures r.Some? ==> var n := |ParseAllP2(Lines(Trim(input))).value|; n <= r.value <= 9 * n
  {
    match ParseAllP2(Lines(Trim(input)))
    case Some(rounds) =>
      TotalP2IsP1(rounds);
      TotalP1Bounds(Chosen(rounds));
      Some(TotalP2(rounds))
    case None => None
  }

  /** The part-1 rounds a part-2 guide calls for: their shape and the
      throw that reaches the outcome. */
  function Chosen(rounds: seq<(Shape, Outcome)>): (r: seq<(Shape, Shape)>)
    ensures |r| == |rounds|
    ensures forall k :: 0 <= k < |rounds| ==> r[k] == (rounds[k].0, ToThrowForOutcome(rounds[k].0, rounds[k].1))
  {
    seq(|rounds|, k requires 0 <= k < |rounds| => (rounds[k].0, ToThrowForOutcome(rounds[k].0, rounds[k].1)))
  }

  /** Scoring a part-2 guide is scoring the throws it calls for. */
  lemma {:induction false} TotalP2IsP1(rounds: seq<(Shape, Outcome)>)
    ensures TotalP2(rounds) == TotalP1(Chosen(rounds))
  {
    if rounds != [] {
      assert Chosen(rounds)[1..] == Chosen(rounds[1..]);
      TotalP2IsP1(rounds[1..]);
    }
  }

  /** Each round scores between 1 and 9, so the total is bounded by the
      number of rounds. */
  lemma {:induction false} TotalP1Bounds(rounds: seq<(Shape, Shape)>)
    ensures |rounds| <= TotalP1(rounds) <= 9 * |rounds|
  {
    if rounds != [] {
      TotalP1Bounds(rounds[1..]);
    }
  }

  /** The example strategy guide, read as rounds. */
  lemma ExampleTotals()
    ensures TotalP1([(Rock, Paper), (Paper, Rock), (Scissors, Scissors)]) == 15
    ensures TotalP2([(Rock, Draw), (Paper, Lose), (Scissors, Win)]) == 12
  {
  }
}
