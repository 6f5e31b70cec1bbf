/** The parts of Rust's `str` and integer parsing that the solvers use, on
    `string` (= `seq<char>`): `trim`, `find`, `split`, `split_once`,
    `strip_prefix`, `lines`, `split_whitespace` and `parse` for integers,
    together with printers that serve as their inverses. */
module Text {
  import opened Wrappers

  /** ASCII part of `char::is_whitespace`: space and '\t' ..= '\r'. */
  predicate IsWhitespace(c: char) {
    c == ' ' || ('\t' <= c <= '\r')
  }

  predicate IsDigit(c: char) {
    '0' <= c <= '9'
  }

  predicate IsLower(c: char) {
    'a' <= c <= 'z'
  }

  predicate IsUpper(c: char) {
    'A' <= c <= 'Z'
  }

  /** ASCII part of `char::is_alphabetic`. */
  predicate IsAlphabetic(c: char) {
    IsLower(c) || IsUpper(c)
  }

  predicate AllDigits(s: string) {
    forall i :: 0 <= i < |s| ==> IsDigit(s[i])
  }

  /** `char::to_digit(10)` on a decimal digit. */
  function DigitValue(c: char): (d: nat)
    requires IsDigit(c)
    ensures d < 10
  {
    c as int - '0' as int
  }

  function DigitChar(d: nat): (c: char)
    requires d < 10
    ensures IsDigit(c) && DigitValue(c) == d
  {
    ('0' as int + d) as char
  }

  /** `str::trim_start`. */
  function TrimStart(s: string): (r: string)
    ensures |r| <= |s| && r == s[|s| - |r|..]
    ensures r == [] || !IsWhitespace(r[0])
    ensures forall i :: 0 <= i < |s| - |r| ==> IsWhitespace(s[i])
  {
    if s != [] && IsWhitespace(s[0]) then TrimStart(s[1..]) else s
  }

  /** `str::trim_end`. */
  function TrimEnd(s: string): (r: string)
    ensures |r| <= |s| && r == s[..|r|]
    ensures r == [] || !IsWhitespace(r[|r| - 1])
    ensures forall i :: |r| <= i < |s| ==> IsWhitespace(s[i])
  {
    if s != [] && IsWhitespace(s[|s| - 1]) then TrimEnd(s[..|s| - 1]) else s
  }

  /** `str::trim`. */
  function Trim(s: string): string {
    TrimEnd(TrimStart(s))
  }

  /** Text that neither starts nor ends with whitespace is its own trim. */
  lemma TrimUnchanged(s: string)
    requires s == [] || (!IsWhitespace(s[0]) && !IsWhitespace(s[|s| - 1]))
    ensures Trim(s) == s
  {
    assert TrimStart(s) == s;
  }

  /** True when `sep` occurs in `s` starting at position `i`. */
  predicate MatchAt(s: string, sep: string, i: nat) {
    i + |sep| <= |s| && s[i..i + |sep|] == sep
  }

  function FindFrom(s: string, sep: string, k: nat): (r: Option<nat>)
    requires |sep| > 0 && k <= |s|
    ensures r.Some? ==> k <= r.value && MatchAt(s, sep, r.value)
    ensures r.Some? ==> forall i :: k <= i < r.value ==> !MatchAt(s, sep, i)
    ensures r.None? ==> forall i :: k <= i <= |s| ==> !MatchAt(s, sep, i)
    decreases |s| - k
  {
    if k + |sep| > |s| then None
    else if s[k..k + |sep|] == sep then Some(k)
    else FindFrom(s, sep, k + 1)
  }

  /** `str::find` with a string pattern: the first position where `sep` occurs. */
  function Find(s: string, sep: string): (r: Option<nat>)
    requires |sep| > 0
    ensures r.Some? ==> MatchAt(s, sep, r.value)
    ensures r.Some? ==> forall i :: 0 <= i < r.value ==> !MatchAt(s, sep, i)
    ensures r.None? ==> forall i :: 0 <= i <= |s| ==> !MatchAt(s, sep, i)
  {
    FindFrom(s, sep, 0)
  }

  /** If the first character of `sep` does not occur in `a`, the first
      occurrence of `sep` in `a + sep + b` is right after `a`. */
  lemma FindAfter(a: string, sep: string, b: string)
    requires |sep| > 0 && sep[0] !in a
    ensures Find(a + sep + b, sep) == Some(|a|)
  {
    var s := a + sep + b;
    assert s[|a|..|a| + |sep|] == sep;
    assert MatchAt(s, sep, |a|);
    forall i | 0 <= i < |a| ensures !MatchAt(s, sep, i) {
      assert s[i] == a[i];
    }
  }

  /** If the first character of `sep` does not occur in `a`, `sep` does not occur in `a`. */
  lemma FindNone(a: string, sep: string)
    requires |sep| > 0 && sep[0] !in a
    ensures Find(a, sep) == None
  {
    forall i | 0 <= i <= |a| ensures !MatchAt(a, sep, i) {
      if i < |a| {
        assert a[i] in a;
      }
    }
  }

  /** `str::split_once`: the text before and after the first `sep`. */
  function SplitOnce(s: string, sep: string): (r: Option<(string, string)>)
    requires |sep| > 0
    ensures r.Some? ==> s == r.value.0 + sep + r.value.1
    ensures r.None? <==> forall i :: 0 <= i <= |s| ==> !MatchAt(s, sep, i)
  {
    match Find(s, sep)
    case None => None
    case Some(i) =>
      assert s == s[..i] + s[i..i + |sep|] + s[i + |sep|..];
      Some((s[..i], s[i + |sep|..]))
  }

  lemma SplitOnceAfter(a: string, sep: string, b: string)
    requires |sep| > 0 && sep[0] !in a
    ensures SplitOnce(a + sep + b, sep) == Some((a, b))
  {
    FindAfter(a, sep, b);
    var s := a + sep + b;
    assert s[..|a|] == a;
    assert s[|a| + |sep|..] == b;
  }

  /** `str::split` with a non-empty pattern: the pieces between the
      occurrences of `sep`, always at least one. */
  function Split(s: string, sep: string): (r: seq<string>)
    requires |sep| > 0
    ensures |r| >= 1
    decreases |s|
  {
    match Find(s, sep)
    case None => [s]
    case Some(i) => [s[..i]] + Split(s[i + |sep|..], sep)
  }

  /** `slice::join`, the inverse of `Split`. */
  function Join(parts: seq<string>, sep: string): string {
    if |parts| == 0 then []
    else if |parts| == 1 then parts[0]
    else parts[0] + sep + Join(parts[1..], sep)
  }

  lemma JoinCons(a: string, tail: seq<string>, sep: string)
    requires |tail| >= 1
    ensures Join([a] + tail, sep) == a + sep + Join(tail, sep)
    ensures Join([a] + tail, sep) == a + (sep + Join(tail, sep))
  {
    assert ([a] + tail)[1..] == tail;
  }

  /** Joining one more piece appends the separator and the piece. */
  lemma {:induction false} JoinSnoc(init: seq<string>, last: string, sep: string)
    requires |init| >= 1
    ensures Join(init + [last], sep) == Join(init, sep) + sep + last
    decreases |init|
  {
    if |init| == 1 {
      assert init + [last] == [init[0], last];
      assert [init[0], last][1..] == [last];
    } else {
      assert (init + [last])[1..] == init[1..] + [last];
      JoinSnoc(init[1..], last, sep);
    }
  }

  lemma SplitFound(s: string, sep: string, i: nat)
    requires |sep| > 0 && Find(s, sep) == Some(i)
    ensures Split(s, sep) == [s[..i]] + Split(s[i + |sep|..], sep)
    ensures s == s[..i] + sep + s[i + |sep|..]
  {
    assert s[i..i + |sep|] == sep;
  }

  /** Splitting and joining again gives back the text. */
  lemma {:induction false} JoinSplit(s: string, sep: string)
    requires |sep| > 0
    ensures Join(Split(s, sep), sep) == s
    decreases |s|
  {
    var f := Find(s, sep);
    if f.Some? {
      var i := f.value;
      var rest := s[i + |sep|..];
      SplitFound(s, sep, i);
      JoinSplit(rest, sep);
      JoinCons(s[..i], Split(rest, sep), sep);
    }
  }

  /** Joining pieces that do not contain the first character of `sep` and
      splitting again gives back the pieces. */
  lemma {:induction false} SplitJoin(parts: seq<string>, sep: string)
    requires |sep| > 0 && |parts| >= 1
    requires forall k :: 0 <= k < |parts| ==> sep[0] !in parts[k]
    ensures Split(Join(parts, sep), sep) == parts
  {
    if |parts| == 1 {
      FindNone(parts[0], sep);
    } else {
      var tail := parts[1..];
      assert parts == [parts[0]] + tail;
      JoinCons(parts[0], tail, sep);
      SplitAfter(parts[0], sep, Join(tail, sep));
      SplitJoin(tail, sep);
    }
  }

  /** A piece free of the first character of `sep` is split off first. */
  lemma SplitAfter(a: string, sep: string, b: string)
    requires |sep| > 0 && sep[0] !in a
    ensures Split(a + sep + b, sep) == [a] + Split(b, sep)
  {
    var s := a + sep + b;
    FindAfter(a, sep, b);
    SplitFound(s, sep, |a|);
    assert s[..|a|] == a;
    assert s[|a| + |sep|..] == b;
  }

  /** No piece of a split on a one-character pattern contains that character. */
  lemma {:induction false} SplitPiecesAvoid(s: string, sep: string)
    requires |sep| == 1
    ensures forall k :: 0 <= k < |Split(s, sep)| ==> sep[0] !in Split(s, sep)[k]
    decreases |s|
  {
    match Find(s, sep)
    case None =>
      forall j | 0 <= j < |s| ensures s[j] != sep[0] {
        assert !MatchAt(s, sep, j);
        assert s[j..j + 1] == [s[j]];
      }
    case Some(i) =>
      forall j | 0 <= j < i ensures s[j] != sep[0] {
        assert !MatchAt(s, sep, j);
        assert s[j..j + 1] == [s[j]];
      }
      SplitPiecesAvoid(s[i + |sep|..], sep);
  }

  /** `str::strip_prefix`. */
  function StripPrefix(s: string, p: string): (r: Option<string>)
    ensures r.Some? <==> p <= s
    ensures r.Some? ==> s == p + r.value
  {
    if p <= s then Some(s[|p|..]) else None
  }

  /** `str::lines` for text with '\n' line ends: the pieces between newlines,
      without an empty piece after a final newline. */
  function Lines(s: string): (r: seq<string>)
    ensures forall k :: 0 <= k < |r| ==> '\n' !in r[k]
  {
    SplitPiecesAvoid(s, "\n");
    if s == [] then []
    else
      var parts := Split(s, "\n");
      if parts[|parts| - 1] == [] then parts[..|parts| - 1] else parts
  }

  /** Lines joined with '\n' are split back into the same lines when the last
      one is not empty. */
  lemma LinesOfJoin(lines: seq<string>)
    requires |lines| >= 1 && lines[|lines| - 1] != []
    requires forall k :: 0 <= k < |lines| ==> '\n' !in lines[k]
    ensures Lines(Join(lines, "\n")) == lines
  {
    var s := Join(lines, "\n");
    SplitJoin(lines, "\n");
  }

  /** Length of the leading run of non-whitespace characters. */
  function TokenLength(s: string): (n: nat)
    ensures n <= |s|
    ensures forall i :: 0 <= i < n ==> !IsWhitespace(s[i])
    ensures n == |s| || IsWhitespace(s[n])
  {
    if s == [] || IsWhitespace(s[0]) then 0 else 1 + TokenLength(s[1..])
  }

  /** A non-empty run of non-whitespace characters. */
  predicate IsToken(t: string) {
    t != [] && forall i :: 0 <= i < |t| ==> !IsWhitespace(t[i])
  }

  /** `str::split_whitespace`: the maximal runs of non-whitespace characters. */
  function SplitWhitespace(s: string): (r: seq<string>)
    ensures forall k :: 0 <= k < |r| ==> IsToken(r[k])
    decreases |s|
  {
    if s == [] then []
    else if IsWhitespace(s[0]) then SplitWhitespace(s[1..])
    else
      var n := TokenLength(s);
      [s[..n]] + SplitWhitespace(s[n..])
  }

  lemma {:induction false} TokenLengthOf(a: string, rest: string)
    requires forall i :: 0 <= i < |a| ==> !IsWhitespace(a[i])
    requires rest == [] || IsWhitespace(rest[0])
    ensures TokenLength(a + rest) == |a|
  {
    if a != [] {
      assert (a + rest)[1..] == a[1..] + rest;
      TokenLengthOf(a[1..], rest);
    } else {
      assert a + rest == rest;
    }
  }

  /** A token followed by whitespace (or the end) is split off first. */
  lemma SplitWhitespaceToken(a: string, rest: string)
    requires IsToken(a)
    requires rest == [] || IsWhitespace(rest[0])
    ensures SplitWhitespace(a + rest) == [a] + SplitWhitespace(rest)
  {
    var s := a + rest;
    assert s[0] == a[0];
    TokenLengthOf(a, rest);
    assert s[..|a|] == a;
    assert s[|a|..] == rest;
  }

  /** A token joined in front of more text splits off as the first token. */
  lemma SplitWhitespaceJoinCons(head: string, tail: seq<string>)
    requires IsToken(head) && |tail| >= 1
    ensures SplitWhitespace(Join([head] + tail, " ")) == [head] + SplitWhitespace(Join(tail, " "))
  {
    var spaced := " " + Join(tail, " ");
    JoinCons(head, tail, " ");
    SplitWhitespaceToken(head, spaced);
    SplitWhitespaceSpace(Join(tail, " "));
  }

  /** A leading space is skipped. */
  lemma SplitWhitespaceSpace(s: string)
    ensures SplitWhitespace(" " + s) == SplitWhitespace(s)
  {
    assert (" " + s)[1..] == s;
  }

  /** Tokens joined with single spaces split back into the same tokens. */
  lemma {:induction false} SplitWhitespaceJoin(tokens: seq<string>)
    requires forall k :: 0 <= k < |tokens| ==> IsToken(tokens[k])
    ensures SplitWhitespace(Join(tokens, " ")) == tokens
  {
    if |tokens| == 1 {
      SplitWhitespaceToken(tokens[0], []);
      assert tokens[0] + [] == tokens[0];
    } else if |tokens| > 1 {
      var tail := tokens[1..];
      assert tokens == [tokens[0]] + tail;
      SplitWhitespaceJoin(tail);
      SplitWhitespaceJoinCons(tokens[0], tail);
    }
  }

  /** Two tokens separated by one space split into those two tokens. */
  lemma SplitWhitespacePair(a: string, b: string)
    requires IsToken(a) && IsToken(b)
    ensures SplitWhitespace(a + " " + b) == [a, b]
  {
    assert [a, b][1..] == [b];
    SplitWhitespaceJoin([a, b]);
  }

  /** Value of a run of decimal digits, most significant first. */
  function DigitsValue(s: string): nat
    requires AllDigits(s)
  {
    if s == [] then 0 else DigitsValue(s[..|s| - 1]) * 10 + DigitValue(s[|s| - 1])
  }

  /** Decimal rendering of a natural number, as `format!("{n}")`. */
  function NatToString(n: nat): (r: string)
    ensures r != [] && AllDigits(r)
  {
    if n < 10 then [DigitChar(n)] else NatToString(n / 10) + [DigitChar(n % 10)]
  }

  lemma {:induction false} DigitsValueOfNatToString(n: nat)
    ensures DigitsValue(NatToString(n)) == n
  {
    if n >= 10 {
      var s := NatToString(n);
      DigitsValueOfNatToString(n / 10);
      assert s[..|s| - 1] == NatToString(n / 10);
    }
  }

  /** `str::parse` for an unsigned integer type: an optional '+' and at least
      one decimal digit. */
  function ParseNat(s: string): (r: Option<nat>)
    ensures r.Some? ==> s != [] && (IsDigit(s[0]) || s[0] == '+')
  {
    var d := if s != [] && s[0] == '+' then s[1..] else s;
    if d != [] && AllDigits(d) then Some(DigitsValue(d)) else None
  }

  /** `str::parse` for a signed integer type: an optional sign and at least
      one decimal digit. */
  function ParseInt(s: string): (r: Option<int>)
  {
    if s != [] && s[0] == '-' then
      var d := s[1..];
      if d != [] && AllDigits(d) then Some(0 - DigitsValue(d)) else None
    else
      match ParseNat(s)
      case Some(n) => Some(n)
      case None => None
  }

  /** Decimal rendering of an integer, with a leading '-' when negative. */
  function IntToString(i: int): (r: string)
    ensures r != []
  {
    if i < 0 then "-" + NatToString(-i) else NatToString(i)
  }

  /** Printing a natural number and parsing it back gives the number. */
  lemma ParseNatToString(n: nat)
    ensures ParseNat(NatToString(n)) == Some(n)
  {
    DigitsValueOfNatToString(n);
  }

  /** Printing an integer and parsing it back gives the integer. */
  lemma ParseIntToString(i: int)
    ensures ParseInt(IntToString(i)) == Some(i)
  {
    if i < 0 {
      var s := IntToString(i);
      assert s[1..] == NatToString(-i);
      DigitsValueOfNatToString(-i);
    } else {
      ParseNatToString(i);
    }
  }

  /** A printed integer is one whitespace-free token. */
  lemma IntToStringIsToken(i: int)
    ensures IsToken(IntToString(i))
  {
    var s := IntToString(i);
    if i < 0 {
      var d := NatToString(-i);
      forall k | 0 <= k < |s| ensures !IsWhitespace(s[k]) {
        if k > 0 {
          assert s[k] == d[k - 1];
        }
      }
    }
  }

  /** A join ends with its last piece. */
  lemma {:induction false} JoinEndsWith(parts: seq<string>, sep: string)
    requires |parts| >= 1
    ensures |parts[|parts| - 1]| <= |Join(parts, sep)|
    ensures Join(parts, sep)[|Join(parts, sep)| - |parts[|parts| - 1]|..] == parts[|parts| - 1]
  {
    if |parts| > 1 {
      JoinEndsWith(parts[1..], sep);
    }
  }

  /** A character in neither the pieces nor the separator is not in the join. */
  lemma {:induction false} JoinAvoids(parts: seq<string>, sep: string, c: char)
    requires c !in sep && forall k :: 0 <= k < |parts| ==> c !in parts[k]
    ensures c !in Join(parts, sep)
  {
    if |parts| > 1 {
      JoinAvoids(parts[1..], sep, c);
    }
  }

  /** A trimmed line that starts with `prefix` gives back what follows it. */
  lemma StripTrimmed(prefix: string, rest: string)
    requires |prefix| > 0 && !IsWhitespace(prefix[0])
    requires |rest| > 0 && !IsWhitespace(rest[|rest| - 1])
    ensures StripPrefix(Trim(prefix + rest), prefix) == Some(rest)
  {
    var line := prefix + rest;
    assert line[|line| - 1] == rest[|rest| - 1];
    TrimUnchanged(line);
    assert line[|prefix|..] == rest;
  }

  /** The last character of a printed number is a digit. */
  lemma NatToStringEnd(n: nat)
    ensures !IsWhitespace(NatToString(n)[|NatToString(n)| - 1])
  {
    assert AllDigits(NatToString(n));
  }

  /** A printed integer contains no separator character: no comma, space or
      newline. */
  lemma IntToStringAvoids(i: int, c: char)
    requires c == ',' || c == ' ' || c == '\n'
    ensures c !in IntToString(i)
  {
    var s := IntToString(i);
    if i < 0 {
      assert s == "-" + NatToString(-i);
      assert AllDigits(NatToString(-i));
    } else {
      assert AllDigits(s);
    }
  }
}
