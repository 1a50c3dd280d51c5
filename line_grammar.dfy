/** The two line patterns of a changelog page, matched the way Go's regexp
    package matches them (leftmost-first: each greedy group takes as much as
    still lets the rest of the pattern match; '.' matches anything but a
    line feed):

      kernel header   ^\* (.*) \[(.*)\]
      driver line     ^- \[(.*)\] (.*): (.*)

    Each pattern is written as a few index searches, and lemmas show that the
    searches find exactly the split the greedy groups choose. */
module LineGrammar {
  import opened Wrappers

  /** What one line of a page says. */
  datatype LineEvent =
    | KernelHeader(description: string, version: string)
    | DriverLine(subSystem: string, driver: string, changeLog: string)
    | Ignored

  // ---------------------------------------------------------------------
  // Searches
  // ---------------------------------------------------------------------

  /** `s` holds the two characters c1 c2 at positions k and k + 1. */
  predicate PairAt(s: string, k: int, c1: char, c2: char)
  {
    0 <= k && k + 1 < |s| && s[k] == c1 && s[k + 1] == c2
  }

  /** The two characters c1 c2 never occur next to each other in `s`. */
  predicate NoPair(s: string, c1: char, c2: char)
  {
    forall k :: 0 <= k < |s| ==> !PairAt(s, k, c1, c2)
  }

  /** The first line feed at or after `from`, or the end of `s`: where a
      '.*' group starting at `from` stops. */
  function LineEnd(s: string, from: nat): (r: nat)
    requires from <= |s|
    ensures from <= r <= |s|
    ensures forall k :: from <= k < r ==> s[k] != '\n'
    ensures r < |s| ==> s[r] == '\n'
    decreases |s| - from
  {
    if from == |s| || s[from] == '\n' then from else LineEnd(s, from + 1)
  }

  /** The last position in [lo, hi) holding `c`, if any. */
  function LastCharIn(s: string, c: char, lo: nat, hi: nat): (r: Option<nat>)
    requires lo <= hi <= |s|
    ensures r.Some? ==> lo <= r.value < hi && s[r.value] == c
    ensures r.Some? ==> forall k :: r.value < k < hi ==> s[k] != c
    ensures r.None? ==> forall k :: lo <= k < hi ==> s[k] != c
    decreases hi - lo
  {
    if hi == lo then None
    else if s[hi - 1] == c then Some(hi - 1)
    else LastCharIn(s, c, lo, hi - 1)
  }

  /** The last position k >= lo with c1 c2 at k and k + 1 and k + 2 <= hi, if any. */
  function LastPairIn(s: string, c1: char, c2: char, lo: nat, hi: nat): (r: Option<nat>)
    requires lo <= hi <= |s|
    ensures r.Some? ==> lo <= r.value && r.value + 2 <= hi && PairAt(s, r.value, c1, c2)
    ensures r.Some? ==> forall k :: r.value < k && k + 2 <= hi ==> !PairAt(s, k, c1, c2)
    ensures r.None? ==> forall k :: lo <= k && k + 2 <= hi ==> !PairAt(s, k, c1, c2)
    decreases hi - lo
  {
    if hi < lo + 2 then None
    else if PairAt(s, hi - 2, c1, c2) then Some(hi - 2)
    else LastPairIn(s, c1, c2, lo, hi - 1)
  }

  // ---------------------------------------------------------------------
  // Kernel header:  ^\* (.*) \[(.*)\]
  // ---------------------------------------------------------------------

  /** The header pattern matches `line` with the description group ending at
      `i` (where " [" starts) and the version group ending at `j` (the "]").
      Neither group, nor the " [" between them, contains a line feed. */
  predicate HeaderSplit(line: string, i: int, j: int)
  {
    && 2 <= |line| && line[0] == '*' && line[1] == ' '
    && 2 <= i && i + 2 <= j < |line|
    && PairAt(line, i, ' ', '[') && line[j] == ']'
    && forall k :: 2 <= k < j ==> line[k] != '\n'
  }

  /** The split the regexp chooses: the longest description for which the
      pattern still matches, then the longest version. */
  ghost predicate GreedyHeaderSplit(line: string, i: int, j: int)
  {
    && HeaderSplit(line, i, j)
    && forall i', j' :: HeaderSplit(line, i', j') ==> i' < i || (i' == i && j' <= j)
  }

  /** The header match as searches: the last "]" on the first physical line,
      then the last " [" that ends at least two characters before it. */
  function MatchHeader(line: string): (r: Option<(nat, nat)>)
    ensures r.Some? ==> HeaderSplit(line, r.value.0, r.value.1)
  {
    if |line| < 2 || line[0] != '*' || line[1] != ' ' then None
    else
      var n := LineEnd(line, 2);
      match LastCharIn(line, ']', 2, n)
      case None => None
      case Some(j) =>
        match LastPairIn(line, ' ', '[', 2, j)
        case None => None
        case Some(i) => Some((i, j))
  }

  /** The searches find a split exactly when the pattern matches, and the one
      they find is the greedy one. */
  lemma MatchHeaderIsGreedy(line: string)
    ensures MatchHeader(line).Some? ==>
              GreedyHeaderSplit(line, MatchHeader(line).value.0, MatchHeader(line).value.1)
    ensures MatchHeader(line).None? ==> forall i, j :: !HeaderSplit(line, i, j)
  {
    if 2 <= |line| && line[0] == '*' && line[1] == ' ' {
      var n := LineEnd(line, 2);
      forall i, j | HeaderSplit(line, i, j)
        ensures j < n
        ensures LastCharIn(line, ']', 2, n).Some?
        ensures j <= LastCharIn(line, ']', 2, n).value
      {
      }
    }
  }

  // ---------------------------------------------------------------------
  // Driver line:  ^- \[(.*)\] (.*): (.*)
  // ---------------------------------------------------------------------

  /** The driver pattern matches `line` with the subsystem group ending at
      `a` (where "] " starts) and the driver group ending at `b` (where ": "
      starts); neither group contains a line feed. */
  predicate DriverSplit(line: string, a: int, b: int)
  {
    && 3 <= |line| && line[0] == '-' && line[1] == ' ' && line[2] == '['
    && 3 <= a && a + 2 <= b && b + 2 <= |line|
    && PairAt(line, a, ']', ' ') && PairAt(line, b, ':', ' ')
    && forall k :: 3 <= k < b ==> line[k] != '\n'
  }

  /** The split the regexp chooses: the longest subsystem for which the
      pattern still matches, then the longest driver name. */
  ghost predicate GreedyDriverSplit(line: string, a: int, b: int)
  {
    && DriverSplit(line, a, b)
    && forall a', b' :: DriverSplit(line, a', b') ==> a' < a || (a' == a && b' <= b)
  }

  /** The last group runs from `from` to `c`, the first line feed or the end. */
  predicate RestOfLine(line: string, from: int, c: int)
  {
    && 0 <= from <= c <= |line|
    && (forall k :: from <= k < c ==> line[k] != '\n')
    && (c == |line| || line[c] == '\n')
  }

  /** The driver match as searches: the last ": " on the first physical line,
      then the last "] " that ends before it; the change log runs to the end
      of the physical line. */
  function MatchDriver(line: string): (r: Option<(nat, nat, nat)>)
    ensures r.Some? ==> DriverSplit(line, r.value.0, r.value.1)
    ensures r.Some? ==> RestOfLine(line, r.value.1 + 2, r.value.2)
  {
    if |line| < 3 || line[0] != '-' || line[1] != ' ' || line[2] != '[' then None
    else
      var n := LineEnd(line, 3);
      match LastPairIn(line, ':', ' ', 3, n)
      case None => None
      case Some(b) =>
        match LastPairIn(line, ']', ' ', 3, b)
        case None => None
        case Some(a) => Some((a, b, LineEnd(line, b + 2)))
  }

  /** The searches find a split exactly when the pattern matches, and the one
      they find is the greedy one. */
  lemma MatchDriverIsGreedy(line: string)
    ensures MatchDriver(line).Some? ==>
              GreedyDriverSplit(line, MatchDriver(line).value.0, MatchDriver(line).value.1)
    ensures MatchDriver(line).None? ==> forall a, b :: !DriverSplit(line, a, b)
  {
    if 3 <= |line| && line[0] == '-' && line[1] == ' ' && line[2] == '[' {
      var n := LineEnd(line, 3);
      forall a, b | DriverSplit(line, a, b)
        ensures b + 2 <= n
        ensures LastPairIn(line, ':', ' ', 3, n).Some?
        ensures b <= LastPairIn(line, ':', ' ', 3, n).value
      {
      }
    }
  }

  // ---------------------------------------------------------------------
  // Classification
  // ---------------------------------------------------------------------

  /** parseOneLine's classification: the header pattern is tried first, the
      driver pattern only when it fails, and a line matching neither is
      ignored. The groups are the substrings between the split points. */
  function Classify(line: string): (r: LineEvent)
    ensures r.KernelHeader? <==> MatchHeader(line).Some?
    ensures r.DriverLine? <==> MatchHeader(line).None? && MatchDriver(line).Some?
    ensures MatchHeader(line).Some? ==> MatchDriver(line).None?
  {
    match MatchHeader(line)
    case Some((i, j)) => KernelHeader(line[2..i], line[i + 2..j])
    case None =>
      match MatchDriver(line)
      case Some((a, b, c)) => DriverLine(line[3..a], line[a + 2..b], line[b + 2..c])
      case None => Ignored
  }

  // ---------------------------------------------------------------------
  // What a matched line looks like, in both directions
  // ---------------------------------------------------------------------

  /** A header line built from a description, a version and a tail is read
      back as that description and version, provided the tail holds no "]",
      the version no " [", and nothing holds a line feed. */
  lemma HeaderLineRoundTrip(d: string, v: string, t: string)
    requires '\n' !in d && '\n' !in v && '\n' !in t
    requires ']' !in t && NoPair(v, ' ', '[')
    ensures Classify("* " + d + " [" + v + "]" + t) == KernelHeader(d, v)
  {
    var line := "* " + d + " [" + v + "]" + t;
    var i, j := 2 + |d|, 4 + |d| + |v|;
    assert line[..2] == "* " && line[2..i] == d && line[i..i + 2] == " [";
    assert line[i + 2..j] == v && line[j] == ']' && line[j + 1..] == t;
    assert HeaderSplit(line, i, j) by {
      forall k | 2 <= k < j ensures line[k] != '\n' {
        if k < i {
          assert line[k] == line[2..i][k - 2];
        } else if k >= i + 2 {
          assert line[k] == line[i + 2..j][k - i - 2];
        }
      }
    }
    forall k | j < k < |line| ensures line[k] != ']' {
      assert line[k] == line[j + 1..][k - j - 1];
    }
    forall k | i + 2 <= k && k + 2 <= j ensures !PairAt(line, k, ' ', '[') {
      assert line[k] == v[k - i - 2] && line[k + 1] == v[k - i - 1];
      assert !PairAt(v, k - i - 2, ' ', '[');
    }
    HeaderMatchAt(line, i, j);
  }

  /** Helper: a header split after which no later split point exists is the
      one MatchHeader finds. */
  lemma HeaderMatchAt(line: string, i: int, j: int)
    requires HeaderSplit(line, i, j)
    requires forall k :: j < k < |line| ==> line[k] != ']'
    requires forall k :: i + 2 <= k && k + 2 <= j ==> !PairAt(line, k, ' ', '[')
    ensures Classify(line) == KernelHeader(line[2..i], line[i + 2..j])
  {
    MatchHeaderIsGreedy(line);
    var (i0, j0) := MatchHeader(line).value;
    assert i0 == i && j0 == j;
  }

  /** Conversely, a line without line feeds that reads as a header is
      "* " + description + " [" + version + "]" + tail, where the tail holds no
      "]" (the version group ends at the last "]") and the version holds no
      " [" (the description group ends at the last " [" before it). */
  lemma HeaderLineShape(line: string)
    requires '\n' !in line && Classify(line).KernelHeader?
    ensures var KernelHeader(d, v) := Classify(line);
      && |d| + |v| + 5 <= |line|
      && line == "* " + d + " [" + v + "]" + line[|d| + |v| + 5..]
      && ']' !in line[|d| + |v| + 5..]
      && NoPair(v, ' ', '[')
  {
    MatchHeaderIsGreedy(line);
    var (i, j) := MatchHeader(line).value;
    var d, v := line[2..i], line[i + 2..j];
    var t := line[j + 1..];
    forall k | 0 <= k < |t| ensures t[k] != ']' {
      assert t[k] == line[j + 1 + k];
      assert HeaderSplit(line, i, j + 1 + k) ==> j + 1 + k <= j;
    }
    forall k | 0 <= k < |v| ensures !PairAt(v, k, ' ', '[') {
      assert HeaderSplit(line, i + 2 + k, j) ==> i + 2 + k <= i;
    }
    assert line == "* " + d + " [" + v + "]" + t;
  }

  /** A driver line built from a subsystem, a driver name and a change log is
      read back as those three, provided the driver name holds no "] ", the
      change log no ": ", and nothing holds a line feed. */
  lemma DriverLineRoundTrip(sub: string, d: string, c: string)
    requires '\n' !in sub && '\n' !in d && '\n' !in c
    requires NoPair(d, ']', ' ') && NoPair(c, ':', ' ')
    ensures Classify("- [" + sub + "] " + d + ": " + c) == DriverLine(sub, d, c)
  {
    var line := "- [" + sub + "] " + d + ": " + c;
    var a := 3 + |sub|;
    var b := a + 2 + |d|;
    assert line[..3] == "- [" && line[3..a] == sub && line[a..a + 2] == "] ";
    assert line[a + 2..b] == d && line[b..b + 2] == ": " && line[b + 2..] == c;
    assert DriverSplit(line, a, b) by {
      forall k | 3 <= k < b ensures line[k] != '\n' {
        if k < a {
          assert line[k] == line[3..a][k - 3];
        } else if k >= a + 2 {
          assert line[k] == line[a + 2..b][k - a - 2];
        }
      }
    }
    forall k | b + 2 <= k < |line| ensures line[k] != '\n' {
      assert line[k] == line[b + 2..][k - b - 2];
    }
    forall k | b + 2 <= k && k + 2 <= |line| ensures !PairAt(line, k, ':', ' ') {
      assert line[k] == c[k - b - 2] && line[k + 1] == c[k - b - 1];
      assert !PairAt(c, k - b - 2, ':', ' ');
    }
    forall k | a + 2 <= k && k + 2 <= b ensures !PairAt(line, k, ']', ' ') {
      assert line[k] == d[k - a - 2] && line[k + 1] == d[k - a - 1];
      assert !PairAt(d, k - a - 2, ']', ' ');
    }
    DriverMatchAt(line, a, b);
  }

  /** Helper: a driver split after which no later split point exists is the
      one MatchDriver finds, and the change log then runs to the end. */
  lemma DriverMatchAt(line: string, a: int, b: int)
    requires DriverSplit(line, a, b)
    requires forall k :: b + 2 <= k < |line| ==> line[k] != '\n'
    requires forall k :: b + 2 <= k && k + 2 <= |line| ==> !PairAt(line, k, ':', ' ')
    requires forall k :: a + 2 <= k && k + 2 <= b ==> !PairAt(line, k, ']', ' ')
    ensures Classify(line) == DriverLine(line[3..a], line[a + 2..b], line[b + 2..])
  {
    MatchDriverIsGreedy(line);
    var (a0, b0, e) := MatchDriver(line).value;
    assert b0 <= b by {
      assert b0 != b + 1;
    }
    assert a0 == a && b0 == b;
    assert e == |line|;
  }

  /** Conversely, a line without line feeds that reads as a driver line is
      "- [" + subsystem + "] " + driver + ": " + change log, where the change
      log holds no ": " (the driver group ends at the last ": ") and the driver
      name holds no "] " (the subsystem group ends at the last "] " before it). */
  lemma DriverLineShape(line: string)
    requires '\n' !in line && Classify(line).DriverLine?
    ensures var DriverLine(sub, d, c) := Classify(line);
      && line == "- [" + sub + "] " + d + ": " + c
      && NoPair(d, ']', ' ') && NoPair(c, ':', ' ')
  {
    MatchDriverIsGreedy(line);
    var (a, b, e) := MatchDriver(line).value;
    var sub, d, c := line[3..a], line[a + 2..b], line[b + 2..e];
    assert Classify(line) == DriverLine(sub, d, c);
    assert e == |line|;
    forall k | 0 <= k < |c| ensures !PairAt(c, k, ':', ' ') {
      assert DriverSplit(line, a, b + 2 + k) ==> b + 2 + k <= b;
    }
    assert NoPair(c, ':', ' ');
    forall k | 0 <= k < |d| ensures !PairAt(d, k, ']', ' ') {
      assert DriverSplit(line, a + 2 + k, b) ==> a + 2 + k <= a;
    }
    assert NoPair(d, ']', ' ');
    assert line == "- [" + sub + "] " + d + ": " + c;
  }

  /** Helper: a pair cannot occur in a string that lacks its first character. */
  lemma NoPairWithoutFirst(s: string, c1: char, c2: char)
    requires c1 !in s
    ensures NoPair(s, c1, c2)
  {
    forall k | 0 <= k < |s| ensures !PairAt(s, k, c1, c2) {
      assert s[k] in s;
    }
  }

  /** Helper: a pair cannot occur in a string that lacks its second character. */
  lemma NoPairWithout(s: string, c1: char, c2: char)
    requires c2 !in s
    ensures NoPair(s, c1, c2)
  {
    forall k | 0 <= k < |s| ensures !PairAt(s, k, c1, c2) {
      if k + 1 < |s| {
        assert s[k + 1] in s;
      }
    }
  }
}
