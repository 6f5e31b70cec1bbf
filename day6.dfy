/** Tuning trouble: the position just after the first run of four distinct
    characters in the datastream. */
module Day6 {

  /** The characters of `s[i..]`'s first (up to) four elements, the set that
      `chars.clone().take(4).collect()` builds. */
  function Window(s: string, i: nat): set<char>
    requires i <= |s|
  {
    var end := if i + 4 <= |s| then i + 4 else |s|;
    set k | i <= k < end :: s[k]
  }

  /** Reference definition of a marker start: four characters, pairwise different. */
  predicate Distinct4(s: string, i: nat) {
    i + 4 <= |s|
    && s[i] != s[i + 1] && s[i] != s[i + 2] && s[i] != s[i + 3]
    && s[i + 1] != s[i + 2] && s[i + 1] != s[i + 3]
    && s[i + 2] != s[i + 3]
  }

  /** The set of a window has size 4 exactly when the window is four
      distinct characters. */
  lemma {:induction false} WindowSize(s: string, i: nat)
    requires i <= |s|
    ensures |Window(s, i)| == 4 <==> Distinct4(s, i)
  {
    var w := Window(s, i);
    if i + 4 <= |s| {
      assert w == {s[i], s[i + 1], s[i + 2], s[i + 3]};
      if !Distinct4(s, i) {
        var a, b, c, d := s[i], s[i + 1], s[i + 2], s[i + 3];
        var three: set<char>;
        if a == b || a == c || a == d { three := {b, c, d}; }
        else if b == c || b == d { three := {a, c, d}; }
        else { three := {a, b, c}; }
        assert w == three;
        assert |{c, d}| <= 2;
        assert |three| <= 3;
      }
    } else {
      var end := |s|;
      assert w <= set k | i <= k < end :: s[k];
      SmallWindow(s, i, end);
    }
  }

  /** A window cut short by the end of the input has fewer than four elements. */
  lemma {:induction false} SmallWindow(s: string, i: nat, end: nat)
    requires i <= end <= |s| && end < i + 4
    ensures |set k | i <= k < end :: s[k]| <= end - i
    decreases end - i
  {
    if i < end {
      var rest := set k | i + 1 <= k < end :: s[k];
      SmallWindow(s, i + 1, end);
      assert (set k | i <= k < end :: s[k]) == rest + {s[i]};
    }
  }

  /** `r` is the answer of `p1::solve`: four more than the least start of a
      run of four distinct characters. */
  predicate IsMarkerEnd(s: string, r: nat) {
    r >= 4 && Distinct4(s, r - 4) && forall j :: 0 <= j < r - 4 ==> !Distinct4(s, j)
  }

  /** The marker end, when it exists, is unique. */
  lemma MarkerEndUnique(s: string, r1: nat, r2: nat)
    requires IsMarkerEnd(s, r1) && IsMarkerEnd(s, r2)
    ensures r1 == r2
  {
  }

  /** `p1::solve`. The loop only ends at a window of four distinct
      characters, so the input must contain one. */
  method Solve(input: string) returns (r: nat)
    requires exists i :: 0 <= i && Distinct4(input, i)
    ensures IsMarkerEnd(input, r)
  {
    ghost var w :| 0 <= w && Distinct4(input, w);
    var idx := 0;
    while true
      invariant idx <= w
      invariant forall j :: 0 <= j < idx ==> !Distinct4(input, j)
      decreases w - idx
    {
      var next4 := Window(input, idx);
      WindowSize(input, idx);
      if |next4| == 4 {
        return idx + 4;
      }
      idx := idx + 1;
    }
  }

  /** The four examples of `test_solve`. */
  lemma Example1()
    ensures IsMarkerEnd("bvwbjplbgvbhsrlpgdmjqwftvncz", 5)
  {
  }

  lemma Example2()
    ensures IsMarkerEnd("nppdvjthqldpwncqszvftbrmjlhg", 6)
  {
  }

  lemma Example3()
    ensures IsMarkerEnd("nznrnfrfntjfmvfwmzdfjlvtqnbhcprsg", 10)
  {
  }

  lemma Example4()
    ensures IsMarkerEnd("zcfzfwzzqfrljwzlrfnpqdbhtmscgvjw", 11)
  {
  }
}
