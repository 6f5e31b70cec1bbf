/** Camp cleanup: pairs of inclusive section ranges, and whether one range
    contains the other or the two overlap. */
module Day4 {
  import opened Wrappers
  import opened Text

  /** `Assignment`: the inclusive range `begin..=end`, empty when begin > end. */
  datatype Assignment = Assignment(begin: nat, end: nat)

  datatype AssignmentPair = AssignmentPair(a1: Assignment, a2: Assignment)

  /** `RangeInclusive::contains`. */
  predicate Contains(a: Assignment, x: int) {
    a.begin <= x <= a.end
  }

  /** `Assignment::from_str`: exactly two '-'-separated numbers; a missing or
      malformed number or a third part is a panic, `None`. */
  function ParseAssignment(s: string): (r: Option<Assignment>)
    ensures r.Some? ==> |Split(s, "-")| == 2
  {
    var parts := Split(s, "-");
    if |parts| != 2 then None
    else
      match (ParseNat(parts[0]), ParseNat(parts[1]))
      case (Some(b), Some(e)) => Some(Assignment(b, e))
      case _ => None
  }

  /** `AssignmentPair::from_str`: the first two ','-separated assignments;
      anything after a second ',' is not looked at. */
  function ParsePair(s: string): (r: Option<AssignmentPair>)
    ensures r.Some? ==> |Split(s, ",")| >= 2
  {
    var parts := Split(s, ",");
    if |parts| < 2 then None
    else
      match (ParseAssignment(parts[0]), ParseAssignment(parts[1]))
      case (Some(a1), Some(a2)) => Some(AssignmentPair(a1, a2))
      case _ => None
  }

  /** The text `begin-end`. */
  function AssignmentToString(a: Assignment): string {
    NatToString(a.begin) + "-" + NatToString(a.end)
  }

  /** The text `begin-end,begin-end`. */
  function PairToString(p: AssignmentPair): string {
    AssignmentToString(p.a1) + "," + AssignmentToString(p.a2)
  }

  lemma DigitsAvoid(s: string, c: char)
    requires AllDigits(s) && !IsDigit(c)
    ensures c !in s
  {
  }

  /** Printing an assignment and parsing it back gives the assignment. */
  lemma ParseAssignmentRoundTrip(a: Assignment)
    ensures ParseAssignment(AssignmentToString(a)) == Some(a)
  {
    var b, e := NatToString(a.begin), NatToString(a.end);
    DigitsAvoid(b, '-');
    DigitsAvoid(e, '-');
    assert Join([b, e], "-") == b + "-" + e;
    SplitJoin([b, e], "-");
    ParseNatToString(a.begin);
    ParseNatToString(a.end);
  }

  /** Printing a pair and parsing it back gives the pair. */
  lemma ParsePairRoundTrip(p: AssignmentPair)
    ensures ParsePair(PairToString(p)) == Some(p)
  {
    var s1, s2 := AssignmentToString(p.a1), AssignmentToString(p.a2);
    DigitsAvoid(NatToString(p.a1.begin), ',');
    DigitsAvoid(NatToString(p.a1.end), ',');
    DigitsAvoid(NatToString(p.a2.begin), ',');
    DigitsAvoid(NatToString(p.a2.end), ',');
    assert ',' !in s1 && ',' !in s2;
    assert Join([s1, s2], ",") == s1 + "," + s2;
    SplitJoin([s1, s2], ",");
    ParseAssignmentRoundTrip(p.a1);
    ParseAssignmentRoundTrip(p.a2);
  }

  /** A third '-' part is rejected. */
  lemma ParseAssignmentRejectsThirdPart(a: Assignment, c: nat)
    ensures ParseAssignment(AssignmentToString(a) + "-" + NatToString(c)).None?
  {
    var b, e, t := NatToString(a.begin), NatToString(a.end), NatToString(c);
    DigitsAvoid(b, '-');
    DigitsAvoid(e, '-');
    DigitsAvoid(t, '-');
    assert [b, e, t] == [b] + [e, t] && [e, t] == [e] + [t];
    JoinCons(b, [e, t], "-");
    JoinCons(e, [t], "-");
    assert AssignmentToString(a) + "-" + t == b + "-" + (e + "-" + t);
    SplitJoin([b, e, t], "-");
  }

  /** `is_completely_redundant`: one range holds both ends of the other;
      for non-empty ranges, one range starts no later and ends no earlier
      than the other. */
  predicate IsCompletelyRedundant(p: AssignmentPair): (r: bool)
    ensures NonEmpty(p.a1) && NonEmpty(p.a2) ==>
      (r <==> (p.a1.begin <= p.a2.begin && p.a2.end <= p.a1.end)
              || (p.a2.begin <= p.a1.begin && p.a1.end <= p.a2.end))
  {
    (Contains(p.a1, p.a2.begin) && Contains(p.a1, p.a2.end))
    || (Contains(p.a2, p.a1.begin) && Contains(p.a2, p.a1.end))
  }

  /** `is_partly_redundant`: some end of either range lies in the other;
      for non-empty ranges, each starts no later than the other ends. */
  predicate IsPartlyRedundant(p: AssignmentPair): (r: bool)
    ensures NonEmpty(p.a1) && NonEmpty(p.a2) ==>
      (r <==> p.a1.begin <= p.a2.end && p.a2.begin <= p.a1.end)
  {
    Contains(p.a1, p.a2.begin) || Contains(p.a1, p.a2.end)
    || Contains(p.a2, p.a1.begin) || Contains(p.a2, p.a1.end)
  }

  /** Reference meaning of containment: every section of `inner` is in `outer`. */
  ghost predicate Covers(outer: Assignment, inner: Assignment) {
    forall x :: Contains(inner, x) ==> Contains(outer, x)
  }

  /** Reference meaning of overlap: some section is in both. */
  ghost predicate Overlaps(a: Assignment, b: Assignment) {
    exists x :: Contains(a, x) && Contains(b, x)
  }

  predicate NonEmpty(a: Assignment) {
    a.begin <= a.end
  }

  lemma CoversIffEnds(outer: Assignment, inner: Assignment)
    requires NonEmpty(inner)
    ensures Covers(outer, inner) <==> Contains(outer, inner.begin) && Contains(outer, inner.end)
  {
    if Contains(outer, inner.begin) && Contains(outer, inner.end) {
      forall x | Contains(inner, x) ensures Contains(outer, x) {
      }
    } else {
      assert Contains(inner, inner.begin) && Contains(inner, inner.end);
    }
  }

  /** For non-empty ranges, the end-point test is exactly containment. */
  lemma CompletelyRedundantMeansCovers(p: AssignmentPair)
    requires NonEmpty(p.a1) && NonEmpty(p.a2)
    ensures IsCompletelyRedundant(p) <==> Covers(p.a1, p.a2) || Covers(p.a2, p.a1)
  {
    CoversIffEnds(p.a1, p.a2);
    CoversIffEnds(p.a2, p.a1);
  }

  /** For non-empty ranges, the end-point test is exactly overlap. */
  lemma PartlyRedundantMeansOverlaps(p: AssignmentPair)
    requires NonEmpty(p.a1) && NonEmpty(p.a2)
    ensures IsPartlyRedundant(p) <==> Overlaps(p.a1, p.a2)
  {
    if IsPartlyRedundant(p) {
      if Contains(p.a1, p.a2.begin) {
        assert Contains(p.a2, p.a2.begin);
      } else if Contains(p.a1, p.a2.end) {
        assert Contains(p.a2, p.a2.end);
      } else if Contains(p.a2, p.a1.begin) {
        assert Contains(p.a1, p.a1.begin);
      } else {
        assert Contains(p.a1, p.a1.end);
      }
    } else {
      forall x ensures !(Contains(p.a1, x) && Contains(p.a2, x)) {
      }
    }
  }

  /** Both predicates ignore the order of the pair, and containment implies overlap. */
  lemma RedundancySymmetric(p: AssignmentPair)
    ensures IsCompletelyRedundant(p) <==> IsCompletelyRedundant(AssignmentPair(p.a2, p.a1))
    ensures IsPartlyRedundant(p) <==> IsPartlyRedundant(AssignmentPair(p.a2, p.a1))
    ensures IsCompletelyRedundant(p) ==> IsPartlyRedundant(p)
  {
  }

  /** The number of pairs counted by `p1::solve`. */
  function CountCompletely(pairs: seq<AssignmentPair>): (n: nat)
    ensures n <= |pairs|
  {
    if pairs == [] then 0
    else (if IsCompletelyRedundant(pairs[0]) then 1 else 0) + CountCompletely(pairs[1..])
  }

  /** The number of pairs counted by `p2::solve`. */
  function CountPartly(pairs: seq<AssignmentPair>): (n: nat)
    ensures n <= |pairs|
  {
    if pairs == [] then 0
    else (if IsPartlyRedundant(pairs[0]) then 1 else 0) + CountPartly(pairs[1..])
  }

  /** Every completely redundant pair is partly redundant, so part 1 never
      counts more than part 2. */
  lemma {:induction false} CountCompletelyAtMostPartly(pairs: seq<AssignmentPair>)
    ensures CountCompletely(pairs) <= CountPartly(pairs)
  {
    if pairs != [] {
      RedundancySymmetric(pairs[0]);
      CountCompletelyAtMostPartly(pairs[1..]);
    }
  }

  function ParseAll(lines: seq<string>): Option<seq<AssignmentPair>> {
    if lines == [] then Some([])
    else
      match (ParsePair(lines[0]), ParseAll(lines[1..]))
      case (Some(p), Some(ps)) => Some([p] + ps)
      case _ => None
  }

  /** `p1::solve`: an answer exactly when every line parses, counting at
      most one per pair. */
  function SolveP1(s: string): (r: Option<nat>)
    ensures r.Some? <==> ParseAll(Lines(s)).Some?
    ensures r.Some? ==> r.value <= |ParseAll(Lines(s)).value|
  {
    match ParseAll(Lines(s))
    case Some(pairs) => Some(CountCompletely(pairs))
    case None => None
  }

  /** `p2::solve`: an answer exactly when every line parses, never less
      than the answer to part one. */
  function SolveP2(s: string): (r: Option<nat>)
    ensures r.Some? <==> ParseAll(Lines(s)).Some?
    ensures r.Some? ==> r.value <= |ParseAll(Lines(s)).value|
    ensures r.Some? ==> SolveP1(s).value <= r.value
  {
    match ParseAll(Lines(s))
    case Some(pairs) => CountCompletelyAtMostPartly(pairs); Some(CountPartly(pairs))
    case None => None
  }

  /** The six pairs of the example. */
  function ExamplePairs(): seq<AssignmentPair> {
    [ AssignmentPair(Assignment(2, 4), Assignment(6, 8)),
      AssignmentPair(Assignment(2, 3), Assignment(4, 5)),
      AssignmentPair(Assignment(5, 7), Assignment(7, 9)),
      AssignmentPair(Assignment(2, 8), Assignment(3, 7)),
      AssignmentPair(Assignment(6, 6), Assignment(4, 6)),
      AssignmentPair(Assignment(2, 6), Assignment(4, 8)) ]
  }

  lemma ExampleCounts()
    ensures CountCompletely(ExamplePairs()) == 2
    ensures CountPartly(ExamplePairs()) == 4
  {
  }
}
