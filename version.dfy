/** Kernel version strings: their decomposition into six numbers
    (NewVersion), the six per-field "less" predicates, the sequential
    tie-break comparator built from a list of them (OrderedBy / Less), and
    the sorter that orders a slice of versions in place (Swap / Len / Sort). */
module Versions {
  import opened Strings

  /** A parsed version. Only the six numbers take part in ordering; `str` is
      the text it was parsed from, the key back into the changelog map. */
  datatype Version = Version(major: int, minor: int, revise: int, patch: int,
                             rc1: int, rc2: int, str: string)
  {
    /** Version.String: the text the version was parsed from, which is the
        key of the version's record in the changelog map. */
    function String(): (s: string)
      ensures s == str
    {
      str
    }
  }

  /** NewVersion: split on "." and read the numbers with Atoi, errors
      discarded. The third segment may hold "revise-patch"; rc1 is read from
      the fourth segment only when there are at least five segments, and rc2
      from the fifth only when there are at least six, so the last segment
      (a distribution tag such as "el8") is never read. Go indexes the first
      three segments unconditionally, hence the precondition. */
  function NewVersion(version: string): (v: Version)
    requires |Split(version, '.')| >= 3
    ensures v.String() == version
  {
    var ss := Split(version, '.');
    var (revise, patch) :=
      if '-' in ss[2] then
        var rp := Split(ss[2], '-');
        (Atoi(rp[0]), Atoi(rp[1]))
      else
        (Atoi(ss[2]), 0);
    Version(Atoi(ss[0]), Atoi(ss[1]), revise, patch,
            if |ss| > 4 then Atoi(ss[3]) else 0,
            if |ss| > 5 then Atoi(ss[4]) else 0,
            version)
  }

  /** The fields NewVersion produces from a version written as dot-separated
      segments `ss`, whose third segment is the dash-separated pieces `rp`. */
  lemma NewVersionOfSegments(ss: seq<string>, rp: seq<string>)
    requires |ss| >= 3 && forall k :: 0 <= k < |ss| ==> '.' !in ss[k]
    requires |rp| >= 1 && forall k :: 0 <= k < |rp| ==> '-' !in rp[k]
    requires ss[2] == Join(rp, '-')
    ensures |Split(Join(ss, '.'), '.')| >= 3
    ensures var v := NewVersion(Join(ss, '.'));
      && v.major == Atoi(ss[0]) && v.minor == Atoi(ss[1])
      && v.revise == Atoi(rp[0])
      && v.patch == (if |rp| >= 2 then Atoi(rp[1]) else 0)
      && v.rc1 == (if |ss| >= 5 then Atoi(ss[3]) else 0)
      && v.rc2 == (if |ss| >= 6 then Atoi(ss[4]) else 0)
      && v.str == Join(ss, '.')
  {
    SplitJoin(ss, '.');
    SplitJoin(rp, '-');
    if |rp| == 1 {
      assert '-' !in ss[2];
    } else {
      assert '-' in ss[2] by {
        assert Split(ss[2], '-') == rp;
      }
    }
  }

  /** "A.B.C" with no dash in C: major, minor and revise are read from A, B
      and C; patch, rc1 and rc2 are 0. */
  lemma NewVersionThreeSegments(a: string, b: string, c: string)
    requires '.' !in a && '.' !in b && '.' !in c && '-' !in c
    ensures var s := a + "." + b + "." + c;
      |Split(s, '.')| >= 3 && NewVersion(s) == Version(Atoi(a), Atoi(b), Atoi(c), 0, 0, 0, s)
  {
    var ss := [a, b, c];
    var s := Join(ss, '.');
    assert s == a + "." + b + "." + c by {
      assert Join(ss[2..], '.') == c;
      assert Join(ss[1..], '.') == b + "." + c;
    }
    NewVersionOfSegments(ss, [c]);
  }

  /** Five segments: rc1 comes from the fourth, and the fifth is never read. */
  lemma NewVersionIgnoresLastSegment()
    ensures |Split("4.18.0-123.2.5", '.')| >= 3
    ensures NewVersion("4.18.0-123.2.5") == Version(4, 18, 0, 123, 2, 0, "4.18.0-123.2.5")
  {
    var ss := ["4", "18", "0-123", "2", "5"];
    var rp := ["0", "123"];
    assert Join(ss, '.') == "4.18.0-123.2.5";
    assert Join(rp, '-') == "0-123";
    NewVersionOfSegments(ss, rp);
    var v := NewVersion("4.18.0-123.2.5");
    AtoiSmall();
    assert v.major == 4 && v.minor == 18 && v.revise == 0;
    assert v.patch == 123 && v.rc1 == 2 && v.rc2 == 0;
  }

  /** A distribution tag never reaches a field: with four segments no rc is read. */
  lemma NewVersionOfDistroTag()
    ensures |Split("4.18.0-123.el8", '.')| >= 3
    ensures NewVersion("4.18.0-123.el8") == Version(4, 18, 0, 123, 0, 0, "4.18.0-123.el8")
  {
    var ss := ["4", "18", "0-123", "el8"];
    var rp := ["0", "123"];
    assert Join(ss, '.') == "4.18.0-123.el8";
    assert Join(rp, '-') == "0-123";
    NewVersionOfSegments(ss, rp);
    var v := NewVersion("4.18.0-123.el8");
    AtoiSmall();
    assert v.major == 4 && v.minor == 18 && v.revise == 0;
    assert v.patch == 123 && v.rc1 == 0 && v.rc2 == 0;
  }

  /** Helper: the values Atoi gives the literals used above. */
  lemma AtoiSmall()
    ensures Atoi("0") == 0 && Atoi("2") == 2 && Atoi("4") == 4
    ensures Atoi("18") == 18 && Atoi("123") == 123
  {
    assert "18"[..1] == "1";
    assert "123"[..2] == "12" && "12"[..1] == "1";
  }

  // ---------------------------------------------------------------------
  // The per-field predicates and the sequential tie-break comparator
  // ---------------------------------------------------------------------

  /** lessFunc: a strict "less" on one aspect of two versions. */
  type LessFunc = (Version, Version) -> bool

  /** The six field predicates; the n-th compares position n of `Key`. */
  function Major(v1: Version, v2: Version): (r: bool)
    ensures r <==> Key(v1)[0] < Key(v2)[0]
  {
    v1.major < v2.major
  }

  function Minor(v1: Version, v2: Version): (r: bool)
    ensures r <==> Key(v1)[1] < Key(v2)[1]
  {
    v1.minor < v2.minor
  }

  function Revise(v1: Version, v2: Version): (r: bool)
    ensures r <==> Key(v1)[2] < Key(v2)[2]
  {
    v1.revise < v2.revise
  }

  function Patch(v1: Version, v2: Version): (r: bool)
    ensures r <==> Key(v1)[3] < Key(v2)[3]
  {
    v1.patch < v2.patch
  }

  function Rc1(v1: Version, v2: Version): (r: bool)
    ensures r <==> Key(v1)[4] < Key(v2)[4]
  {
    v1.rc1 < v2.rc1
  }

  function Rc2(v1: Version, v2: Version): (r: bool)
    ensures r <==> Key(v1)[5] < Key(v2)[5]
  {
    v1.rc2 < v2.rc2
  }

  /** The predicate list the program sorts with: major, minor, revise, patch,
      rc1, rc2, in that priority, so that predicate n compares position n of
      the key. */
  function ByVersionFields(): (r: seq<LessFunc>)
    ensures |r| == |Key(Version(0, 0, 0, 0, 0, 0, ""))| == 6
    ensures forall n, p, q :: 0 <= n < 6 ==> (r[n](p, q) <==> Key(p)[n] < Key(q)[n])
  {
    [Major, Minor, Revise, Patch, Rc1, Rc2]
  }

  /** `less` tells p and q apart, in one direction or the other. */
  predicate Discriminates(less: LessFunc, p: Version, q: Version)
  {
    less(p, q) || less(q, p)
  }

  /** VersionSorter.Less on two versions: try the predicates in order and
      stop at the first that tells p and q apart; the last one decides alone.
      An empty list has no last predicate (Go indexes past the end), hence
      the precondition. */
  function LessBy(less: seq<LessFunc>, p: Version, q: Version): (r: bool)
    requires |less| > 0
    // p comes first only when some predicate puts p before q
    ensures r ==> exists k :: 0 <= k < |less| && less[k](p, q)
    decreases |less|
  {
    if |less| == 1 then less[0](p, q)
    else if less[0](p, q) then true
    else if less[0](q, p) then false
    else LessBy(less[1..], p, q)
  }

  /** The verdict of LessBy is that of the first of the first k-1 predicates
      that discriminates, and otherwise that of the last predicate, whatever it
      says. */
  lemma {:induction false} LessByFirstDiscriminating(less: seq<LessFunc>, p: Version, q: Version)
    requires |less| > 0
    ensures (forall k :: 0 <= k < |less| - 1 ==> !Discriminates(less[k], p, q)) ==>
              LessBy(less, p, q) == less[|less| - 1](p, q)
    ensures forall k :: (0 <= k < |less| - 1 && Discriminates(less[k], p, q) &&
                         (forall m :: 0 <= m < k ==> !Discriminates(less[m], p, q))) ==>
                        LessBy(less, p, q) == less[k](p, q)
    decreases |less|
  {
    if |less| > 1 && !Discriminates(less[0], p, q) {
      LessByFirstDiscriminating(less[1..], p, q);
      assert forall k :: 1 <= k < |less| ==> less[1..][k - 1] == less[k];
    }
  }

  /** A predicate that never holds in both directions. */
  ghost predicate Asymmetric(less: LessFunc)
  {
    forall x, y :: less(x, y) ==> !less(y, x)
  }

  /** When every predicate is asymmetric, so is the comparator built from them. */
  lemma {:induction false} LessByAsymmetric(less: seq<LessFunc>, p: Version, q: Version)
    requires |less| > 0
    requires forall k :: 0 <= k < |less| ==> Asymmetric(less[k])
    ensures LessBy(less, p, q) ==> !LessBy(less, q, p)
    decreases |less|
  {
    assert Asymmetric(less[0]);
    if |less| > 1 && !less[0](p, q) && !less[0](q, p) {
      assert forall k :: 0 <= k < |less| - 1 ==> less[1..][k] == less[k + 1];
      LessByAsymmetric(less[1..], p, q);
    }
  }

  /** The six numbers of a version, in priority order. */
  function Key(v: Version): seq<int>
  {
    [v.major, v.minor, v.revise, v.patch, v.rc1, v.rc2]
  }

  /** Lexicographic "less" on integer sequences: the reference order. */
  predicate LexLess(a: seq<int>, b: seq<int>)
    decreases |a|
  {
    |a| > 0 && |b| > 0 && (a[0] < b[0] || (a[0] == b[0] && LexLess(a[1..], b[1..])))
  }

  /** One level of the tie-break: a predicate that agrees with the first
      numbers of `a` and `b`, in front of a list that agrees with lexicographic
      order on the rest, agrees with lexicographic order on all of `a` and `b`. */
  lemma LessByConsIsLex(f: LessFunc, rest: seq<LessFunc>, p: Version, q: Version,
                        a: seq<int>, b: seq<int>)
    requires |rest| > 0 && |a| > 0 && |b| > 0
    requires f(p, q) <==> a[0] < b[0]
    requires f(q, p) <==> b[0] < a[0]
    requires LessBy(rest, p, q) <==> LexLess(a[1..], b[1..])
    ensures LessBy([f] + rest, p, q) <==> LexLess(a, b)
  {
    assert ([f] + rest)[1..] == rest;
  }

  /** The last four predicates order as the last four numbers do. */
  lemma LessByLastFourIsLex(p: Version, q: Version)
    ensures LessBy([Revise, Patch, Rc1, Rc2], p, q) <==> LexLess(Key(p)[2..], Key(q)[2..])
  {
    var kp, kq := Key(p), Key(q);
    assert LexLess(kp[5..], kq[5..]) <==> p.rc2 < q.rc2 by {
      assert kp[5..][1..] == [];
    }
    assert kp[4..][1..] == kp[5..] && kq[4..][1..] == kq[5..];
    assert kp[3..][1..] == kp[4..] && kq[3..][1..] == kq[4..];
    assert kp[2..][1..] == kp[3..] && kq[2..][1..] == kq[3..];
    LessByConsIsLex(Rc1, [Rc2], p, q, kp[4..], kq[4..]);
    LessByConsIsLex(Patch, [Rc1, Rc2], p, q, kp[3..], kq[3..]);
    LessByConsIsLex(Revise, [Patch, Rc1, Rc2], p, q, kp[2..], kq[2..]);
  }

  /** The program's comparator is exactly lexicographic order on the six numbers. */
  lemma LessByVersionFieldsIsLex(p: Version, q: Version)
    ensures LessBy(ByVersionFields(), p, q) <==> LexLess(Key(p), Key(q))
  {
    var kp, kq := Key(p), Key(q);
    LessByLastFourIsLex(p, q);
    assert kp[1..][1..] == kp[2..] && kq[1..][1..] == kq[2..];
    LessByConsIsLex(Minor, [Revise, Patch, Rc1, Rc2], p, q, kp[1..], kq[1..]);
    LessByConsIsLex(Major, [Minor, Revise, Patch, Rc1, Rc2], p, q, kp, kq);
  }

  lemma {:induction false} LexLessIrreflexive(a: seq<int>)
    ensures !LexLess(a, a)
    decreases |a|
  {
    if |a| > 0 {
      LexLessIrreflexive(a[1..]);
    }
  }

  lemma {:induction false} LexLessTransitive(a: seq<int>, b: seq<int>, c: seq<int>)
    requires LexLess(a, b) && LexLess(b, c)
    ensures LexLess(a, c)
    decreases |a|
  {
    if a[0] == b[0] && b[0] == c[0] {
      LexLessTransitive(a[1..], b[1..], c[1..]);
    }
  }

  /** Two sequences of the same length are equal or ordered one way or the other. */
  lemma {:induction false} LexLessTotal(a: seq<int>, b: seq<int>)
    requires |a| == |b|
    ensures a == b || LexLess(a, b) || LexLess(b, a)
    decreases |a|
  {
    if |a| > 0 && a[0] == b[0] {
      LexLessTotal(a[1..], b[1..]);
      if a[1..] == b[1..] {
        assert a == [a[0]] + a[1..] && b == [b[0]] + b[1..];
      }
    }
  }

  /** The program's comparator is a strict order on the six numbers:
      irreflexive and transitive, and two versions neither of which is less
      than the other have the same six numbers. */
  lemma VersionOrderIsStrict(p: Version, q: Version, r: Version)
    ensures !LessBy(ByVersionFields(), p, p)
    ensures LessBy(ByVersionFields(), p, q) && LessBy(ByVersionFields(), q, r) ==>
              LessBy(ByVersionFields(), p, r)
    ensures !LessBy(ByVersionFields(), p, q) && !LessBy(ByVersionFields(), q, p) ==>
              Key(p) == Key(q)
  {
    LessByVersionFieldsIsLex(p, p);
    LessByVersionFieldsIsLex(p, q);
    LessByVersionFieldsIsLex(q, p);
    LessByVersionFieldsIsLex(q, r);
    LessByVersionFieldsIsLex(p, r);
    LexLessIrreflexive(Key(p));
    if LexLess(Key(p), Key(q)) && LexLess(Key(q), Key(r)) {
      LexLessTransitive(Key(p), Key(q), Key(r));
    }
    LexLessTotal(Key(p), Key(q));
  }

  /** Every one of the six field predicates is asymmetric. */
  lemma VersionFieldsAsymmetric()
    ensures forall k :: 0 <= k < |ByVersionFields()| ==> Asymmetric(ByVersionFields()[k])
  {
  }

  /** For the program's comparator, "no adjacent pair out of order" means the
      whole sequence is in order: no later version is less than an earlier one. */
  lemma {:induction false} AdjacentOrderIsTotalOrder(s: seq<Version>)
    requires forall k :: 0 <= k < |s| - 1 ==> !LessBy(ByVersionFields(), s[k + 1], s[k])
    ensures forall i, j :: 0 <= i < j < |s| ==> !LessBy(ByVersionFields(), s[j], s[i])
    decreases |s|
  {
    if |s| > 1 {
      var t := s[..|s| - 1];
      AdjacentOrderIsTotalOrder(t);
      forall i | 0 <= i < |s| - 1
        ensures !LessBy(ByVersionFields(), s[|s| - 1], s[i])
      {
        LessByNotAfter(s, i, |s| - 1);
      }
    }
  }

  /** Helper: in a sequence sorted pairwise up to its last element, the last
      element is not less than any earlier one. */
  lemma {:induction false} LessByNotAfter(s: seq<Version>, i: int, j: int)
    requires 0 <= i < j < |s|
    requires forall k :: 0 <= k < |s| - 1 ==> !LessBy(ByVersionFields(), s[k + 1], s[k])
    ensures Key(s[i]) == Key(s[j]) || LexLess(Key(s[i]), Key(s[j]))
    ensures !LessBy(ByVersionFields(), s[j], s[i])
    decreases j - i
  {
    var f := ByVersionFields();
    LessByVersionFieldsIsLex(s[i + 1], s[i]);
    LexLessTotal(Key(s[i]), Key(s[i + 1]));
    if i + 1 < j {
      LessByNotAfter(s, i + 1, j);
      if LexLess(Key(s[i]), Key(s[i + 1])) && LexLess(Key(s[i + 1]), Key(s[j])) {
        LexLessTransitive(Key(s[i]), Key(s[i + 1]), Key(s[j]));
      }
    }
    LessByVersionFieldsIsLex(s[j], s[i]);
    if LexLess(Key(s[i]), Key(s[j])) && LexLess(Key(s[j]), Key(s[i])) {
      LexLessTransitive(Key(s[i]), Key(s[j]), Key(s[i]));
      LexLessIrreflexive(Key(s[i]));
    }
    if Key(s[i]) == Key(s[j]) {
      LexLessIrreflexive(Key(s[i]));
    }
  }

  // ---------------------------------------------------------------------
  // VersionSorter: sort.Interface over a slice of versions
  // ---------------------------------------------------------------------

  class VersionSorter {
    /** The slice being sorted; nil until Sort is called. */
    var versions: array?<Version>
    /** The predicates, in priority order. */
    const less: seq<LessFunc>

    /** OrderedBy: a sorter over the given predicates, with no slice yet. */
    constructor OrderedBy(less: seq<LessFunc>)
      ensures this.less == less && versions == null
    {
      this.less := less;
      versions := null;
    }

    /** Len: the length of the slice (a nil slice has length 0). */
    function Len(): (n: nat)
      reads this
      ensures versions != null ==> n == versions.Length
      ensures versions == null ==> n == 0
    {
      if versions == null then 0 else versions.Length
    }

    /** Less(i, j): the tie-break comparator on the versions at i and j. */
    function Less(i: int, j: int): (r: bool)
      reads this, versions
      requires versions != null && 0 <= i < versions.Length && 0 <= j < versions.Length
      requires |less| > 0
      ensures r == LessBy(less, versions[i], versions[j])
    {
      LessBy(less, versions[i], versions[j])
    }

    /** Swap(i, j): exchange the versions at i and j and nothing else. */
    method Swap(i: int, j: int)
      requires versions != null && 0 <= i < versions.Length && 0 <= j < versions.Length
      modifies versions
      ensures versions[i] == old(versions[j]) && versions[j] == old(versions[i])
      ensures forall k :: 0 <= k < versions.Length && k != i && k != j ==>
                versions[k] == old(versions[k])
      ensures multiset(versions[..]) == old(multiset(versions[..]))
    {
      versions[i], versions[j] := versions[j], versions[i];
    }

    /** Sort: remember the slice and sort it in place through Len, Less and
        Swap. The result is a permutation of the input with no adjacent pair
        out of order; equal versions may be reordered. */
    method Sort(vs: array<Version>)
      requires vs.Length > 1 ==> |less| > 0
      requires forall k :: 0 <= k < |less| ==> Asymmetric(less[k])
      modifies this, vs
      ensures versions == vs
      ensures multiset(vs[..]) == old(multiset(vs[..]))
      ensures forall k :: 0 <= k < vs.Length - 1 ==> !LessBy(less, vs[k + 1], vs[k])
    {
      versions := vs;
      var i := 0;
      while i < Len()
        invariant versions == vs
        invariant 0 <= i <= vs.Length
        invariant multiset(vs[..]) == old(multiset(vs[..]))
        invariant forall k :: 0 <= k < i - 1 ==> !LessBy(less, vs[k + 1], vs[k])
      {
        SinkLast(i);
        i := i + 1;
      }
    }

    /** One pass of the sort: move the version at i left past every version
        it is less than, so that positions 0..i are in order. */
    method SinkLast(i: int)
      requires versions != null && 0 <= i < versions.Length
      requires i > 0 ==> |less| > 0
      requires forall k :: 0 <= k < |less| ==> Asymmetric(less[k])
      requires forall k :: 0 <= k < i - 1 ==> !LessBy(less, versions[k + 1], versions[k])
      modifies versions
      ensures multiset(versions[..]) == old(multiset(versions[..]))
      ensures forall k :: 0 <= k < i ==> !LessBy(less, versions[k + 1], versions[k])
    {
      var j := i;
      while j > 0 && Less(j, j - 1)
        invariant 0 <= j <= i
        invariant multiset(versions[..]) == old(multiset(versions[..]))
        invariant forall k :: 0 <= k < j - 1 ==> !LessBy(less, versions[k + 1], versions[k])
        invariant forall k :: j < k < i ==> !LessBy(less, versions[k + 1], versions[k])
        invariant 0 < j < i ==> !LessBy(less, versions[j + 1], versions[j - 1])
        invariant j < i ==> LessBy(less, versions[j], versions[j + 1])
      {
        Swap(j, j - 1);
        j := j - 1;
      }
      if j < i {
        LessByAsymmetric(less, versions[j], versions[j + 1]);
      }
    }
  }
}
