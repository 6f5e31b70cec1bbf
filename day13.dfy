/** Distress signal: packets are integers or nested lists, parsed from
    `[1,[2,3]]` notation and compared by the puzzle's mixed ordering. */
module Day13 {
  import opened Wrappers
  import opened Text

  /** `u32::MAX`: larger integers are a `parse().unwrap()` panic. */
  const U32Max: nat := 0xFFFF_FFFF

  /** `Item`: an integer or a list of items. */
  datatype Item = Int(n: nat) | List(items: seq<Item>)

  // ------------------------------------------------------------------ parsing

  /** The length of the leading run of decimal digits. */
  function DigitRun(s: string): (n: nat)
    ensures n <= |s| && AllDigits(s[..n]) && (n == |s| || !IsDigit(s[n]))
  {
    if s == [] || !IsDigit(s[0]) then 0
    else
      var k := DigitRun(s[1..]);
      assert s[..k + 1] == [s[0]] + s[1..][..k];
      k + 1
  }

  /** A digit string followed by a non-digit is read in full. */
  lemma {:induction false} DigitRunOf(a: string, rest: string)
    requires AllDigits(a) && (rest == [] || !IsDigit(rest[0]))
    ensures DigitRun(a + rest) == |a|
  {
    if a != [] {
      assert (a + rest)[1..] == a[1..] + rest;
      DigitRunOf(a[1..], rest);
    }
  }

  /** `parse_int`: the leading digits as a `u32`, and the text after them.
      No digits, or a value over `u32::MAX`, is the `unwrap` panic. */
  function LeadingInt(s: string): (r: Option<(nat, string)>)
    ensures r.Some? <==> DigitRun(s) > 0 && DigitsValue(s[..DigitRun(s)]) <= U32Max
    ensures r.Some? ==> r.value.0 == DigitsValue(s[..DigitRun(s)]) && r.value.1 == s[DigitRun(s)..]
  {
    var k := DigitRun(s);
    if k == 0 then None
    else
      var v := DigitsValue(s[..k]);
      if v > U32Max then None else Some((v, s[k..]))
  }

  /** `t` is what is left of `s` after reading some of it. */
  predicate Suffix(t: string, s: string) {
    |t| <= |s| && t == s[|s| - |t|..]
  }

  lemma SuffixDrop(s: string, k: nat)
    requires k <= |s|
    ensures Suffix(s[k..], s)
  {
  }

  lemma SuffixTrans(a: string, b: string, c: string)
    requires Suffix(a, b) && Suffix(b, c)
    ensures Suffix(a, c)
  {
    assert c[|c| - |b|..][|b| - |a|..] == c[|c| - |a|..];
  }

  /** The elements of a list after its `[`, appended to `acc`, up to and
      including the closing `]`: the `loop` of `parse_list`. A `,` after an
      element is skipped when present. */
  function ParseElems(s: string, acc: seq<Item>): (r: Option<(seq<Item>, string)>)
    ensures r.Some? ==> |r.value.1| < |s| && Suffix(r.value.1, s)
    decreases |s|, 1
  {
    if |s| > 0 && s[0] == ']' then Some((acc, s[1..]))
    else
      match ParseItem(s)
      case None => None
      case Some((item, rest)) =>
        var rest' := if |rest| > 0 && rest[0] == ',' then rest[1..] else rest;
        SuffixDrop(rest, if |rest| > 0 && rest[0] == ',' then 1 else 0);
        SuffixTrans(rest', rest, s);
        match ParseElems(rest', acc + [item])
        case None => None
        case Some((items, after)) =>
          SuffixTrans(after, rest', s);
          Some((items, after))
  }

  /** `parse_item`: a list when the text starts with `[`, an integer
      otherwise. The result keeps the unread suffix of `s`. */
  function ParseItem(s: string): (r: Option<(Item, string)>)
    ensures r.Some? ==> |r.value.1| < |s| && Suffix(r.value.1, s)
    decreases |s|, 0
  {
    if |s| > 0 && s[0] == '[' then
      match ParseElems(s[1..], [])
      case None => None
      case Some((items, rest)) =>
        SuffixDrop(s, 1);
        SuffixTrans(rest, s[1..], s);
        Some((List(items), rest))
    else
      match LeadingInt(s)
      case None => None
      case Some((n, rest)) =>
        SuffixDrop(s, DigitRun(s));
        Some((Int(n), rest))
  }

  /** `parse_list` as the loop it is: strip `[`, then push items until `]`. */
  method ParseList(s: string) returns (r: Option<(seq<Item>, string)>)
    ensures r == if |s| > 0 && s[0] == '[' then ParseElems(s[1..], []) else None
  {
    if |s| == 0 || s[0] != '[' {
      return None;
    }
    var items: seq<Item> := [];
    var cur := s[1..];
    while true
      invariant ParseElems(cur, items) == ParseElems(s[1..], [])
      decreases |cur|
    {
      if |cur| > 0 && cur[0] == ']' {
        return Some((items, cur[1..]));
      }
      var parsed := ParseItem(cur);
      if parsed.None? {
        return None;
      }
      var (item, suffix) := parsed.value;
      items := items + [item];
      cur := if |suffix| > 0 && suffix[0] == ',' then suffix[1..] else suffix;
    }
  }

  /** `Item::from_str`: one item and nothing after it. */
  function ParsePacket(s: string): (r: Option<Item>)
    ensures r.Some? ==> ParseItem(s) == Some((r.value, ""))
    ensures ParseItem(s).Some? && ParseItem(s).value.1 == "" ==> r.Some?
  {
    match ParseItem(s)
    case None => None
    case Some((item, rest)) => if rest == [] then Some(item) else None
  }

  // ------------------------------------------------------------ round trip

  /** The packet notation: decimal integers, lists in brackets with commas. */
  function Render(x: Item): string
    decreases x
  {
    match x
    case Int(n) => NatToString(n)
    case List(l) => "[" + RenderElems(l) + "]"
  }

  function RenderElems(l: seq<Item>): string
    decreases l
  {
    if l == [] then ""
    else if |l| == 1 then Render(l[0])
    else Render(l[0]) + "," + RenderElems(l[1..])
  }

  /** Every integer of the item fits a `u32`. */
  predicate Fits(x: Item)
    decreases x
  {
    match x
    case Int(n) => n <= U32Max
    case List(l) => forall k :: 0 <= k < |l| ==> Fits(l[k])
  }

  /** A rendered item starts with `[` or a digit, never `]` or `,`. */
  lemma RenderStart(x: Item)
    ensures |Render(x)| > 0
    ensures Render(x)[0] == '[' || IsDigit(Render(x)[0])
  {
    match x
    case Int(n) =>
    case List(l) =>
  }

  /** A rendered integer is read back up to the next non-digit. */
  lemma IntRoundTrip(n: nat, rest: string)
    requires n <= U32Max && (rest == [] || !IsDigit(rest[0]))
    ensures ParseItem(NatToString(n) + rest) == Some((Int(n), rest))
  {
    var t := NatToString(n);
    var s := t + rest;
    DigitRunOf(t, rest);
    assert s[..|t|] == t && s[|t|..] == rest;
    DigitsValueOfNatToString(n);
    assert s[0] == t[0];
  }

  /** A list is read by its elements after the `[`. */
  lemma ListStep(body: string)
    ensures ParseItem("[" + body) ==
      match ParseElems(body, [])
      case None => None
      case Some((items, rest)) => Some((List(items), rest))
  {
    assert ("[" + body)[1..] == body;
  }

  /** Parsing reads a rendered item back, and stops where it ends. */
  lemma {:induction false} ItemRoundTrip(x: Item, rest: string)
    requires Fits(x) && (rest == [] || !IsDigit(rest[0]))
    ensures ParseItem(Render(x) + rest) == Some((x, rest))
    decreases x, 0
  {
    match x
    case Int(n) =>
      IntRoundTrip(n, rest);
    case List(l) =>
      var body := RenderElems(l) + "]" + rest;
      assert Render(x) + rest == "[" + body;
      ListStep(body);
      ElemsRoundTrip(l, rest, []);
      assert [] + l == l;
  }

  /** After an element, a `,` is skipped and a `]` ends the list. */
  lemma ElemsStep(x: Item, tail: string, acc: seq<Item>)
    requires Fits(x) && |tail| > 0 && (tail[0] == ',' || tail[0] == ']')
    requires ParseItem(Render(x) + tail) == Some((x, tail))
    ensures ParseElems(Render(x) + tail, acc) ==
      ParseElems(if tail[0] == ',' then tail[1..] else tail, acc + [x])
  {
    RenderStart(x);
  }

  lemma ConcatAssoc(x: string, y: string, z: string)
    ensures x + y + z == x + (y + z)
  {
  }

  lemma ItemsAssoc(a: seq<Item>, b: seq<Item>, c: seq<Item>)
    ensures a + b + c == a + (b + c)
  {
  }

  /** How a rendered element list followed by `]` begins: the first element,
      then `]` or `,` and the rest. */
  lemma ElemsText(l: seq<Item>, rest: string)
    requires l != []
    ensures |l| == 1 ==> RenderElems(l) + "]" + rest == Render(l[0]) + ("]" + rest)
    ensures |l| > 1 ==> RenderElems(l) + "]" + rest == Render(l[0]) + ("," + (RenderElems(l[1..]) + "]" + rest))
  {
    var a, close := Render(l[0]), "]";
    if |l| == 1 {
      assert RenderElems(l) == a;
    } else {
      var comma, b := ",", RenderElems(l[1..]);
      assert RenderElems(l) == a + comma + b;
      ConcatAssoc(b, close, rest);
      ConcatAssoc(comma, b, close + rest);
      ConcatAssoc(a + comma + b, close, rest);
      ConcatAssoc(a + comma, b, close + rest);
      ConcatAssoc(a, comma, b + (close + rest));
    }
  }

  lemma {:induction false} ElemsRoundTrip(l: seq<Item>, rest: string, acc: seq<Item>)
    requires forall k :: 0 <= k < |l| ==> Fits(l[k])
    ensures ParseElems(RenderElems(l) + "]" + rest, acc) == Some((acc + l, rest))
    decreases l, 2
  {
    if l == [] {
      assert RenderElems(l) + "]" + rest == "]" + rest;
      assert ("]" + rest)[1..] == rest && acc + l == acc;
    } else if |l| == 1 {
      LastElemRoundTrip(l, rest, acc);
    } else {
      MoreElemsRoundTrip(l, rest, acc);
    }
  }

  /** The last element is followed by the closing `]`. */
  lemma {:induction false} LastElemRoundTrip(l: seq<Item>, rest: string, acc: seq<Item>)
    requires |l| == 1 && Fits(l[0])
    ensures ParseElems(RenderElems(l) + "]" + rest, acc) == Some((acc + l, rest))
    decreases l, 1
  {
    var x, tail := l[0], "]" + rest;
    ElemsText(l, rest);
    ItemRoundTrip(x, tail);
    ElemsStep(x, tail, acc);
    assert tail[1..] == rest;
    assert acc + l == acc + [x];
  }

  /** Reading the first of several elements leaves the text after its `,`. */
  lemma ConsStep(l: seq<Item>, rest: string, acc: seq<Item>)
    requires |l| > 1 && Fits(l[0])
    requires ParseItem(Render(l[0]) + ("," + (RenderElems(l[1..]) + "]" + rest)))
      == Some((l[0], "," + (RenderElems(l[1..]) + "]" + rest)))
    ensures ParseElems(RenderElems(l) + "]" + rest, acc) == ParseElems(RenderElems(l[1..]) + "]" + rest, acc + [l[0]])
  {
    var body := RenderElems(l[1..]) + "]" + rest;
    ElemsText(l, rest);
    ElemsStep(l[0], "," + body, acc);
    assert ("," + body)[1..] == body;
  }

  /** An element followed by `,` and the rest of the list. */
  lemma {:induction false} MoreElemsRoundTrip(l: seq<Item>, rest: string, acc: seq<Item>)
    requires |l| > 1 && forall k :: 0 <= k < |l| ==> Fits(l[k])
    ensures ParseElems(RenderElems(l) + "]" + rest, acc) == Some((acc + l, rest))
    decreases l, 1
  {
    var x, l' := l[0], l[1..];
    ItemRoundTrip(x, "," + (RenderElems(l') + "]" + rest));
    ConsStep(l, rest, acc);
    assert forall k :: 0 <= k < |l'| ==> l'[k] == l[k + 1];
    ElemsRoundTrip(l', rest, acc + [x]);
    assert l == [x] + l';
    ItemsAssoc(acc, [x], l');
  }

  /** `from_str` reads back every rendered packet. */
  lemma PacketRoundTrip(x: Item)
    requires Fits(x)
    ensures ParsePacket(Render(x)) == Some(x)
  {
    ItemRoundTrip(x, "");
    assert Render(x) + "" == Render(x);
  }

  // --------------------------------------------------------------- ordering

  datatype Ordering = Less | Equal | Greater

  function Flip(o: Ordering): Ordering {
    match o
    case Less => Greater
    case Equal => Equal
    case Greater => Less
  }

  /** `u32::partial_cmp`. */
  function CompareInt(i: nat, j: nat): (r: Ordering)
    ensures r == Less <==> i < j
    ensures r == Equal <==> i == j
  {
    if i < j then Less else if i == j then Equal else Greater
  }

  /** The number of integers and lists in an item, which bounds the
      comparison's recursion. */
  function Size(x: Item): (n: nat)
    ensures n >= 1
    decreases x
  {
    match x
    case Int(_) => 1
    case List(l) => 1 + SeqSize(l)
  }

  function SeqSize(l: seq<Item>): nat
    decreases l
  {
    if l == [] then 0 else Size(l[0]) + SeqSize(l[1..])
  }

  /** `Item::partial_cmp`, which never yields `None`, so it is `cmp`. An
      integer against a list is compared as a one-element list. */
  function Compare(a: Item, b: Item): (o: Ordering)
    ensures a.Int? && b.Int? ==> (o == Equal <==> a.n == b.n)
    ensures o == Equal && a.List? && b.List? ==> |a.items| == |b.items|
    ensures o == Equal && a.Int? && b.List? ==> |b.items| == 1
    ensures o == Equal && a.List? && b.Int? ==> |a.items| == 1
    decreases Size(a) + Size(b), 0
  {
    match (a, b)
    case (Int(i), Int(j)) => CompareInt(i, j)
    case (Int(i), List(r)) =>
      assert SeqSize([Int(i)]) == 1 by { assert [Int(i)][1..] == []; }
      CompareSeq([Int(i)], r)
    case (List(l), Int(j)) =>
      assert SeqSize([Int(j)]) == 1 by { assert [Int(j)][1..] == []; }
      CompareSeq(l, [Int(j)])
    case (List(l), List(r)) => CompareSeq(l, r)
  }

  /** `Vec::partial_cmp`: the first unequal element pair decides; a proper
      prefix comes first. */
  function CompareSeq(l: seq<Item>, r: seq<Item>): (o: Ordering)
    ensures o == Equal ==> |l| == |r|
    decreases SeqSize(l) + SeqSize(r), 1
  {
    if l == [] && r == [] then Equal
    else if l == [] then Less
    else if r == [] then Greater
    else
      var c := Compare(l[0], r[0]);
      if c != Equal then c else CompareSeq(l[1..], r[1..])
  }

  /** The source's wrapping rules, one direction each. */
  lemma WrapInt(i: nat, r: seq<Item>)
    ensures Compare(Int(i), List(r)) == Compare(List([Int(i)]), List(r))
    ensures Compare(List(r), Int(i)) == Compare(List(r), List([Int(i)]))
  {
  }

  /** Every item equals itself. */
  lemma {:induction false} CompareReflexive(a: Item)
    ensures Compare(a, a) == Equal
    decreases a
  {
    match a
    case Int(_) =>
    case List(l) => CompareSeqReflexive(l);
  }

  lemma {:induction false} CompareSeqReflexive(l: seq<Item>)
    ensures CompareSeq(l, l) == Equal
    decreases l
  {
    if l != [] {
      CompareReflexive(l[0]);
      CompareSeqReflexive(l[1..]);
    }
  }

  /** Swapping the operands flips the answer. */
  lemma {:induction false} CompareAntisymmetric(a: Item, b: Item)
    ensures Compare(b, a) == Flip(Compare(a, b))
    decreases Size(a) + Size(b), 0
  {
    match (a, b)
    case (Int(i), Int(j)) =>
    case (Int(i), List(r)) =>
      assert SeqSize([Int(i)]) == 1 by { assert [Int(i)][1..] == []; }
      CompareSeqAntisymmetric([Int(i)], r);
    case (List(l), Int(j)) =>
      assert SeqSize([Int(j)]) == 1 by { assert [Int(j)][1..] == []; }
      CompareSeqAntisymmetric(l, [Int(j)]);
    case (List(l), List(r)) => CompareSeqAntisymmetric(l, r);
  }

  lemma {:induction false} CompareSeqAntisymmetric(l: seq<Item>, r: seq<Item>)
    ensures CompareSeq(r, l) == Flip(CompareSeq(l, r))
    decreases SeqSize(l) + SeqSize(r), 1
  {
    if l != [] && r != [] {
      CompareAntisymmetric(l[0], r[0]);
      CompareSeqAntisymmetric(l[1..], r[1..]);
    }
  }

  /** A proper prefix sorts first. */
  lemma {:induction false} PrefixFirst(l: seq<Item>, more: seq<Item>)
    requires more != []
    ensures CompareSeq(l, l + more) == Less
  {
    if l != [] {
      CompareReflexive(l[0]);
      assert (l + more)[1..] == l[1..] + more;
      PrefixFirst(l[1..], more);
    }
  }

  /** `pair.0 <= pair.1`: `partial_cmp` gives `Less` or `Equal`. */
  predicate InOrder(a: Item, b: Item) {
    Compare(a, b) != Greater
  }

  /** Any two packets are in order one way or the other. */
  lemma InOrderTotal(a: Item, b: Item)
    ensures InOrder(a, b) || InOrder(b, a)
  {
    CompareAntisymmetric(a, b);
  }

  // ------------------------------------------------------------- examples

  lemma Digits42()
    ensures NatToString(42) == "42" && NatToString(43) == "43" && NatToString(44) == "44"
  {
  }

  lemma DigitsSmall()
    ensures NatToString(1) == "1" && NatToString(2) == "2" && NatToString(4) == "4"
  {
  }

  /** `test_parse_item`: an integer stops at the first non-digit. */
  lemma ParseIntExample(rest: string)
    requires rest == [] || !IsDigit(rest[0])
    ensures ParseItem("42" + rest) == Some((Int(42), rest))
  {
    Digits42();
    IntRoundTrip(42, rest);
  }

  lemma ParseIntComma()
    ensures ParseItem("42,") == Some((Int(42), ","))
  {
    ParseIntExample(",");
    assert "42" + "," == "42,";
  }

  /** `test_parse_item`: the empty list and a list holding it. */
  lemma ParseEmptyLists()
    ensures ParseItem("[]") == Some((List([]), ""))
    ensures ParseItem("[[]]") == Some((List([List([])]), ""))
  {
    var e := List([]);
    assert Render(e) + "" == "[]";
    ItemRoundTrip(e, "");
    var z := List([e]);
    assert Render(z) + "" == "[[]]";
    ItemRoundTrip(z, "");
  }

  lemma RenderNested()
    ensures Render(List([Int(42), Int(43), List([Int(44)])])) == "[42,43,[44]]"
  {
    Digits42();
    assert Render(List([Int(44)])) == "[44]";
    assert RenderElems([Int(42), Int(43), List([Int(44)])]) == "42,43,[44]";
  }

  /** `test_parse_item`: integers and a list inside a list. */
  lemma ParseNested()
    ensures ParseItem("[42,43,[44]]") == Some((List([Int(42), Int(43), List([Int(44)])]), ""))
  {
    var x := List([Int(42), Int(43), List([Int(44)])]);
    RenderNested();
    assert "[42,43,[44]]" + "" == "[42,43,[44]]";
    ItemRoundTrip(x, "");
  }

  lemma RenderListOfLists()
    ensures Render(List([List([Int(1)]), List([Int(2), Int(4)])])) == "[[1],[2,4]]"
  {
    DigitsSmall();
    assert Render(List([Int(1)])) == "[1]";
    assert Render(List([Int(2), Int(4)])) == "[2,4]";
    assert RenderElems([List([Int(1)]), List([Int(2), Int(4)])]) == "[1],[2,4]";
  }

  /** `test_parse_item`: a list of lists. */
  lemma ParseListOfLists()
    ensures ParseItem("[[1],[2,4]]") == Some((List([List([Int(1)]), List([Int(2), Int(4)])]), ""))
  {
    var y := List([List([Int(1)]), List([Int(2), Int(4)])]);
    RenderListOfLists();
    assert "[[1],[2,4]]" + "" == "[[1],[2,4]]";
    ItemRoundTrip(y, "");
  }

  /** `test_compare_items`. */
  lemma CompareExamples()
    ensures Compare(Int(42), Int(43)) == Less
    ensures Compare(List([Int(42)]), List([Int(43)])) == Less
    ensures Compare(List([]), List([Int(43)])) == Less
    ensures Compare(Int(42), List([Int(43)])) == Less
    ensures Compare(Int(44), List([Int(43)])) == Greater
  {
    assert CompareSeq([Int(42)], [Int(43)]) == Less;
    assert CompareSeq([Int(44)], [Int(43)]) == Greater;
  }

  // ----------------------------------------------------------------- part 1

  /** One block of `p1::solve`: two lines, each trimmed and parsed. A block
      without a line break, or a packet that does not parse, is a panic. */
  function ParsePair(block: string): Option<(Item, Item)> {
    match SplitOnce(block, "\n")
    case None => None
    case Some((first, second)) =>
      match (ParsePacket(Trim(first)), ParsePacket(Trim(second)))
      case (Some(a), Some(b)) => Some((a, b))
      case _ => None
  }

  function ParsePairs(blocks: seq<string>): (r: Option<seq<(Item, Item)>>)
    ensures r.Some? ==> |r.value| == |blocks|
  {
    if blocks == [] then Some([])
    else
      match (ParsePairs(blocks[..|blocks| - 1]), ParsePair(blocks[|blocks| - 1]))
      case (Some(ps), Some(p)) => Some(ps + [p])
      case _ => None
  }

  /** The sum of the 1-based indices of the pairs that are in order. */
  function OrderedSum(pairs: seq<(Item, Item)>): nat {
    if pairs == [] then 0
    else
      var last := pairs[|pairs| - 1];
      OrderedSum(pairs[..|pairs| - 1]) + (if InOrder(last.0, last.1) then |pairs| else 0)
  }

  /** `1 + 2 + … + n`. */
  function Triangle(n: nat): nat {
    if n == 0 then 0 else Triangle(n - 1) + n
  }

  /** The sum is at most `1 + … + n`, reached exactly when every pair is in
      order; a pair out of order costs at least its own index. */
  lemma {:induction false} OrderedSumBound(pairs: seq<(Item, Item)>)
    ensures OrderedSum(pairs) <= Triangle(|pairs|)
    ensures OrderedSum(pairs) == Triangle(|pairs|) <==>
      forall k :: 0 <= k < |pairs| ==> InOrder(pairs[k].0, pairs[k].1)
    ensures forall k :: 0 <= k < |pairs| && !InOrder(pairs[k].0, pairs[k].1) ==>
      OrderedSum(pairs) + k + 1 <= Triangle(|pairs|)
  {
    if pairs != [] {
      var init := pairs[..|pairs| - 1];
      OrderedSumBound(init);
      assert forall k :: 0 <= k < |init| ==> init[k] == pairs[k];
    }
  }

  /** `p1::solve`: pairs are separated by a blank line. */
  function SolveP1(input: string): (r: Option<nat>)
    ensures r.Some? <==> ParsePairs(Split(input, "\n\n")).Some?
    ensures r.Some? ==> r.value <= Triangle(|Split(input, "\n\n")|)
  {
    match ParsePairs(Split(input, "\n\n"))
    case None => None
    case Some(pairs) =>
      OrderedSumBound(pairs);
      Some(OrderedSum(pairs))
  }
}

