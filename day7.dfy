/** No space left on device: a terminal log of `cd` and `ls` commands, the
    directory sizes it reveals, and the sum of the small ones. */
module Day7 {
  import opened Wrappers
  import opened Text

  datatype Command = Cd(dirname: string) | Ls
  datatype Output = DirStat(name: string) | FileStat(name: string, size: nat)
  datatype Line = CommandLine(command: Command) | OutputLine(output: Output)

  /** `Command::parse_borrowed`: exactly `$ cd NAME` or `$ ls`. */
  function ParseCommand(line: string): (r: Option<Command>)
    ensures r.Some? ==> Split(line, " ")[0] == "$"
  {
    var parts := Split(line, " ");
    if parts[0] != "$" || |parts| < 2 then None
    else if parts[1] == "cd" then (if |parts| == 3 then Some(Cd(parts[2])) else None)
    else if parts[1] == "ls" then (if |parts| == 2 then Some(Ls) else None)
    else None
  }

  /** `DirStat::parse_borrowed`: exactly `dir NAME`. */
  function ParseDirStat(line: string): (r: Option<Output>)
    ensures r.Some? ==> r.value.DirStat?
  {
    var parts := Split(line, " ");
    if parts[0] == "dir" && |parts| == 2 then Some(DirStat(parts[1])) else None
  }

  /** `FileStat::parse_borrowed`: exactly two tokens, the first a size. */
  function ParseFileStat(line: string): (r: Option<Output>)
    ensures r.Some? ==> r.value.FileStat?
  {
    var parts := Split(line, " ");
    if |parts| != 2 then None
    else
      match ParseNat(parts[0])
      case Some(size) => Some(FileStat(parts[1], size))
      case None => None
  }

  /** `Output::parse_borrowed`: a directory entry first, then a file entry. */
  function ParseOutput(line: string): Option<Output> {
    match ParseDirStat(line)
    case Some(d) => Some(d)
    case None => ParseFileStat(line)
  }

  /** `Line::parse_borrowed`: a command first, then an output line. */
  function ParseLine(line: string): (r: Option<Line>)
    ensures r.Some? <==> ParseCommand(line).Some? || ParseOutput(line).Some?
  {
    match ParseCommand(line)
    case Some(c) => Some(CommandLine(c))
    case None =>
      match ParseOutput(line)
      case Some(o) => Some(OutputLine(o))
      case None => None
  }

  /** The terminal text of a line. */
  function LineText(l: Line): string {
    match l
    case CommandLine(Cd(d)) => "$ cd " + d
    case CommandLine(Ls) => "$ ls"
    case OutputLine(DirStat(n)) => "dir " + n
    case OutputLine(FileStat(n, s)) => NatToString(s) + " " + n
  }

  /** Names are single tokens of the log: they contain no space. */
  predicate WellFormed(l: Line) {
    match l
    case CommandLine(Cd(d)) => ' ' !in d
    case CommandLine(Ls) => true
    case OutputLine(DirStat(n)) => ' ' !in n
    case OutputLine(FileStat(n, _)) => ' ' !in n
  }

  lemma SplitWords(words: seq<string>)
    requires |words| >= 1 && forall k :: 0 <= k < |words| ==> ' ' !in words[k]
    ensures Split(Join(words, " "), " ") == words
  {
    SplitJoin(words, " ");
  }

  lemma ParseCdRoundTrip(d: string)
    requires ' ' !in d
    ensures ParseLine("$ cd " + d) == Some(CommandLine(Cd(d)))
  {
    assert Join(["$", "cd", d], " ") == "$ cd " + d by {
      JoinCons("$", ["cd", d], " ");
      JoinCons("cd", [d], " ");
      assert ["$", "cd", d] == ["$"] + ["cd", d];
      assert ["cd", d] == ["cd"] + [d];
    }
    SplitWords(["$", "cd", d]);
  }

  lemma ParseLsRoundTrip()
    ensures ParseLine("$ ls") == Some(CommandLine(Ls))
  {
    assert Join(["$", "ls"], " ") == "$ ls" by {
      JoinCons("$", ["ls"], " ");
      assert ["$", "ls"] == ["$"] + ["ls"];
    }
    SplitWords(["$", "ls"]);
  }

  lemma ParseDirStatRoundTrip(n: string)
    requires ' ' !in n
    ensures ParseLine("dir " + n) == Some(OutputLine(DirStat(n)))
  {
    assert Join(["dir", n], " ") == "dir " + n by {
      JoinCons("dir", [n], " ");
      assert ["dir", n] == ["dir"] + [n];
    }
    SplitWords(["dir", n]);
  }

  lemma ParseFileStatRoundTrip(n: string, s: nat)
    requires ' ' !in n
    ensures ParseLine(NatToString(s) + " " + n) == Some(OutputLine(FileStat(n, s)))
  {
    var digits := NatToString(s);
    assert ' ' !in digits;
    assert Join([digits, n], " ") == digits + " " + n by {
      JoinCons(digits, [n], " ");
      assert [digits, n] == [digits] + [n];
    }
    SplitWords([digits, n]);
    ParseNatToString(s);
    assert digits != "$" && digits != "dir" by {
      assert IsDigit(digits[0]);
    }
  }

  /** Every log line reads back as itself. */
  lemma ParseLineRoundTrip(l: Line)
    requires WellFormed(l)
    ensures ParseLine(LineText(l)) == Some(l)
  {
    match l
    case CommandLine(Cd(d)) => ParseCdRoundTrip(d);
    case CommandLine(Ls) => ParseLsRoundTrip();
    case OutputLine(DirStat(n)) => ParseDirStatRoundTrip(n);
    case OutputLine(FileStat(n, s)) => ParseFileStatRoundTrip(n, s);
  }

  /** A command with an extra token is no line at all. */
  lemma ParseLineRejectsExtraToken(extra: string)
    requires ' ' !in extra
    ensures ParseLine("$ ls " + extra).None?
  {
    var words := ["$", "ls", extra];
    assert Join(words, " ") == "$ ls " + extra by {
      JoinCons("$", ["ls", extra], " ");
      JoinCons("ls", [extra], " ");
      assert words == ["$"] + ["ls", extra];
      assert ["ls", extra] == ["ls"] + [extra];
    }
    SplitWords(words);
  }

  /** The lines of `test_parse_line`. */
  lemma ParseFileLineExample()
    ensures ParseLine("232179 vqqcvgts.vrc") == Some(OutputLine(FileStat("vqqcvgts.vrc", 232179)))
  {
    assert NatToString(232179) == "232179";
    assert "232179" + " " + "vqqcvgts.vrc" == "232179 vqqcvgts.vrc";
    ParseFileStatRoundTrip("vqqcvgts.vrc", 232179);
  }

  lemma ParseDirLineExample()
    ensures ParseLine("dir bshmsns") == Some(OutputLine(DirStat("bshmsns")))
  {
    assert "dir " + "bshmsns" == "dir bshmsns";
    ParseDirStatRoundTrip("bshmsns");
  }

  lemma ParseCdLineExample()
    ensures ParseLine("$ cd /") == Some(CommandLine(Cd("/")))
  {
    assert "$ cd " + "/" == "$ cd /";
    ParseCdRoundTrip("/");
  }

  /** The working directory after `cd dirname`: `/` goes to the root, `..`
      to the parent (staying at the root when already there, as popping an
      empty `Vec` does), any other name into that child. */
  function ChangeDir(cwd: seq<string>, dirname: string): (r: seq<string>)
    ensures dirname == "/" ==> r == []
    ensures dirname == ".." ==> r == (if cwd == [] then [] else cwd[..|cwd| - 1])
    ensures dirname != "/" && dirname != ".." ==> r == cwd + [dirname]
  {
    if dirname == "/" then []
    else if dirname == ".." then (if cwd == [] then [] else cwd[..|cwd| - 1])
    else cwd + [dirname]
  }

  /** The size recorded for a path, 0 when it has none (`or_default`). */
  function Get(sizes: map<string, nat>, path: string): nat {
    if path in sizes then sizes[path] else 0
  }

  /** `size` added to the path of `cwd` and of each of its ancestors, the
      longest first, down to the root "". */
  function AddToAncestors(sizes: map<string, nat>, cwd: seq<string>, size: nat): (r: map<string, nat>)
    ensures sizes.Keys <= r.Keys && Join(cwd, "/") in r && "" in r
    decreases |cwd|
  {
    var path := Join(cwd, "/");
    var added := sizes[path := Get(sizes, path) + size];
    if cwd == [] then added else AddToAncestors(added, cwd[..|cwd| - 1], size)
  }

  /** How many prefixes of `cwd` (the empty one included) join to `path`. */
  function PrefixCount(cwd: seq<string>, path: string): nat
    decreases |cwd|
  {
    (if Join(cwd, "/") == path then 1 else 0)
    + (if cwd == [] then 0 else PrefixCount(cwd[..|cwd| - 1], path))
  }

  /** Each path gains the file size once for every prefix of `cwd` that
      names it, and nothing else changes. */
  lemma {:induction false} AddToAncestorsMeaning(sizes: map<string, nat>, cwd: seq<string>, size: nat, path: string)
    ensures Get(AddToAncestors(sizes, cwd, size), path) == Get(sizes, path) + size * PrefixCount(cwd, path)
    decreases |cwd|
  {
    var p := Join(cwd, "/");
    var added := sizes[p := Get(sizes, p) + size];
    var here: nat := if p == path then 1 else 0;
    assert Get(added, path) == Get(sizes, path) + size * here;
    if cwd != [] {
      var init := cwd[..|cwd| - 1];
      AddToAncestorsMeaning(added, init, size, path);
      assert PrefixCount(cwd, path) == here + PrefixCount(init, path);
      assert size * (here + PrefixCount(init, path)) == size * here + size * PrefixCount(init, path);
    }
  }

  /** Joining a longer prefix of non-empty names gives a longer path. */
  lemma {:induction false} JoinLengthGrows(cwd: seq<string>, i: nat)
    requires i < |cwd| && forall k :: 0 <= k < |cwd| ==> cwd[k] != []
    ensures |Join(cwd[..i], "/")| < |Join(cwd, "/")|
    decreases |cwd|
  {
    var init := cwd[..|cwd| - 1];
    if |cwd| == 1 {
      assert cwd[..i] == [];
    } else {
      JoinSnoc(init, cwd[|cwd| - 1], "/");
      assert init + [cwd[|cwd| - 1]] == cwd;
      if i < |init| {
        JoinLengthGrows(init, i);
        assert init[..i] == cwd[..i];
      } else {
        assert cwd[..i] == init;
      }
    }
  }

  /** When every directory name is non-empty, a file counts at most once
      toward each path: `cwd` and its ancestors all have different paths. */
  lemma {:induction false} PrefixCountAtMostOne(cwd: seq<string>, path: string)
    requires forall k :: 0 <= k < |cwd| ==> cwd[k] != []
    ensures PrefixCount(cwd, path) <= 1
    decreases |cwd|
  {
    if cwd != [] {
      var init := cwd[..|cwd| - 1];
      PrefixCountAtMostOne(init, path);
      if Join(cwd, "/") == path {
        PrefixCountNone(cwd, |cwd| - 1, path);
      }
    }
  }

  /** No prefix of length at most `i` joins to the full path. */
  lemma {:induction false} PrefixCountNone(cwd: seq<string>, i: nat, path: string)
    requires i < |cwd| && forall k :: 0 <= k < |cwd| ==> cwd[k] != []
    requires path == Join(cwd, "/")
    ensures PrefixCount(cwd[..i], path) == 0
    decreases i
  {
    JoinLengthGrows(cwd, i);
    if i > 0 {
      PrefixCountNone(cwd, i - 1, path);
      assert cwd[..i][..i - 1] == cwd[..i - 1];
    }
  }

  /** The state of `p1::solve` between lines. */
  datatype State = State(cwd: seq<string>, sizes: map<string, nat>)

  /** One log line: `cd` moves, a file entry adds its size to the working
      directory and its ancestors, anything else is ignored. */
  function Step(st: State, l: Line): State {
    match l
    case CommandLine(Cd(d)) => st.(cwd := ChangeDir(st.cwd, d))
    case CommandLine(Ls) => st
    case OutputLine(DirStat(_)) => st
    case OutputLine(FileStat(_, size)) => st.(sizes := AddToAncestors(st.sizes, st.cwd, size))
  }

  /** Replaying a log: a directory once recorded is never forgotten. */
  function Run(st: State, log: seq<Line>): (r: State)
    ensures st.sizes.Keys <= r.sizes.Keys
    decreases |log|
  {
    if log == [] then st else Run(Step(st, log[0]), log[1..])
  }

  /** The files a log lists, each with the working directory it was listed in. */
  function Listings(cwd: seq<string>, log: seq<Line>): seq<(seq<string>, nat)>
    decreases |log|
  {
    if log == [] then []
    else
      var next := Step(State(cwd, map[]), log[0]).cwd;
      match log[0]
      case OutputLine(FileStat(_, size)) => [(cwd, size)] + Listings(next, log[1..])
      case _ => Listings(next, log[1..])
  }

  /** The total a path receives from a list of listings. */
  function Received(listings: seq<(seq<string>, nat)>, path: string): nat {
    if listings == [] then 0
    else listings[0].1 * PrefixCount(listings[0].0, path) + Received(listings[1..], path)
  }

  /** After replaying a log, each path holds what it had plus the size of
      every listed file, counted once per prefix of that file's directory
      naming the path. */
  lemma {:induction false} RunSizes(st: State, log: seq<Line>, path: string)
    ensures Get(Run(st, log).sizes, path) == Get(st.sizes, path) + Received(Listings(st.cwd, log), path)
    decreases |log|
  {
    if log != [] {
      var next := Step(st, log[0]);
      assert next.cwd == Step(State(st.cwd, map[]), log[0]).cwd;
      RunSizes(next, log[1..], path);
      match log[0]
      case OutputLine(FileStat(_, size)) =>
        AddToAncestorsMeaning(st.sizes, st.cwd, size, path);
        assert Listings(st.cwd, log)[1..] == Listings(next.cwd, log[1..]);
      case _ =>
    }
  }

  /** `lines().map(|l| Line::parse_borrowed(l).unwrap())`: the log parses
      when every line does, one entry per line; any other line panics. */
  function ParseLog(lines: seq<string>): (r: Option<seq<Line>>)
    ensures r.Some? <==> forall k :: 0 <= k < |lines| ==> ParseLine(lines[k]).Some?
    ensures r.Some? ==> |r.value| == |lines|
    ensures r.Some? ==> forall k :: 0 <= k < |lines| ==> r.value[k] == ParseLine(lines[k]).value
  {
    if lines == [] then Some([])
    else
      assert forall k :: 1 <= k < |lines| ==> lines[k] == lines[1..][k - 1];
      match (ParseLine(lines[0]), ParseLog(lines[1..]))
      case (Some(l), Some(ls)) => Some([l] + ls)
      case _ => None
  }

  /** The largest directory total that counts. */
  const Limit: nat := 100000

  /** Sum of the recorded sizes that are at most `Limit`. */
  ghost function SumSmall(sizes: map<string, nat>): nat
    decreases |sizes.Keys|
  {
    if sizes.Keys == {} then 0
    else
      var k :| k in sizes.Keys;
      (if sizes[k] <= Limit then sizes[k] else 0) + SumSmall(sizes - {k})
  }

  /** The sum does not depend on which key is taken first. */
  lemma {:induction false} SumSmallAny(sizes: map<string, nat>, k: string)
    requires k in sizes
    ensures SumSmall(sizes) == (if sizes[k] <= Limit then sizes[k] else 0) + SumSmall(sizes - {k})
    decreases |sizes.Keys|
  {
    var j :| j in sizes.Keys && SumSmall(sizes) ==
      (if sizes[j] <= Limit then sizes[j] else 0) + SumSmall(sizes - {j});
    if j != k {
      var rest := sizes - {j};
      SumSmallAny(rest, k);
      SumSmallAny(sizes - {k}, j);
      assert rest - {k} == (sizes - {k}) - {j};
    }
  }

  /** Sums the small directory totals, one path at a time. */
  method SumSmallSizes(sizes: map<string, nat>) returns (total: nat)
    ensures total == SumSmall(sizes)
  {
    var rest := sizes;
    total := 0;
    while rest.Keys != {}
      invariant total + SumSmall(rest) == SumSmall(sizes)
      decreases |rest.Keys|
    {
      var k :| k in rest.Keys;
      SumSmallAny(rest, k);
      if rest[k] <= Limit {
        total := total + rest[k];
      }
      rest := rest - {k};
    }
  }

  /** `p1::solve`: every line must parse (the `unwrap`); then the log is
      replayed with a working-directory stack and a size map. */
  method Solve(input: string) returns (r: Option<nat>)
    ensures r == match ParseLog(Lines(input))
                 case None => None
                 case Some(log) => Some(SumSmall(Run(State([], map[]), log).sizes))
  {
    var log := ParseLog(Lines(input));
    if log.None? {
      return None;
    }
    var lines := log.value;
    var cwd: seq<string> := [];
    var sizes: map<string, nat> := map[];
    for j := 0 to |lines|
      invariant Run(State(cwd, sizes), lines[j..]) == Run(State([], map[]), lines)
    {
      assert lines[j..][1..] == lines[j + 1..];
      match lines[j]
      case CommandLine(Cd(d)) =>
        if d == "/" {
          cwd := [];
        } else if d == ".." {
          if cwd != [] {
            cwd := cwd[..|cwd| - 1];
          }
        } else {
          cwd := cwd + [d];
        }
      case CommandLine(Ls) =>
      case OutputLine(DirStat(_)) =>
      case OutputLine(FileStat(_, size)) =>
        sizes := AddFile(sizes, cwd, size);
    }
    var total := SumSmallSizes(Run(State(cwd, sizes), []).sizes);
    return Some(total);
  }

  /** The loop of `p1::solve` over the working directory and its ancestors:
      `i` counts how many trailing names are dropped. */
  method AddFile(sizes: map<string, nat>, cwd: seq<string>, size: nat) returns (r: map<string, nat>)
    ensures r == AddToAncestors(sizes, cwd, size)
  {
    r := sizes;
    assert cwd[..|cwd|] == cwd;
    for i := 0 to |cwd| + 1
      invariant i <= |cwd| ==> AddToAncestors(r, cwd[..|cwd| - i], size) == AddToAncestors(sizes, cwd, size)
      invariant i == |cwd| + 1 ==> r == AddToAncestors(sizes, cwd, size)
    {
      var prefix := cwd[..|cwd| - i];
      if i < |cwd| {
        assert prefix[..|prefix| - 1] == cwd[..|cwd| - (i + 1)];
      }
      r := r[Join(prefix, "/") := Get(r, Join(prefix, "/")) + size];
    }
  }
}
