/** String helpers from Go's standard library that the changelog tool relies on:
    strings.Split with a one-character separator, strings.Contains,
    strings.TrimLeft with the cut set "\n", strings.Replace of the no-break
    space, and strconv.Atoi. Strings are sequences of characters. */
module Strings {

  /** The no-break space, U+00A0, whose UTF-8 encoding is the bytes C2 A0. */
  const NoBreakSpace: char := 160 as char

  // ---------------------------------------------------------------------
  // strings.Split and its inverse
  // ---------------------------------------------------------------------

  /** strings.Split(s, sep) for a one-character separator: the pieces of `s`
      between the occurrences of `sep`. The empty string yields one empty piece. */
  function Split(s: string, sep: char): (parts: seq<string>)
    ensures |parts| >= 1
    ensures forall k :: 0 <= k < |parts| ==> sep !in parts[k]
    ensures |parts| > 1 <==> sep in s
    decreases |s|
  {
    if s == [] then [[]]
    else
      var rest := Split(s[1..], sep);
      if s[0] == sep then [[]] + rest
      else [[s[0]] + rest[0]] + rest[1..]
  }

  /** strings.Join(parts, string(sep)): the pieces with `sep` between them. */
  function Join(parts: seq<string>, sep: char): string
    requires |parts| >= 1
  {
    if |parts| == 1 then parts[0] else parts[0] + [sep] + Join(parts[1..], sep)
  }

  /** Joining the pieces back together gives the original string. */
  lemma {:induction false} JoinSplit(s: string, sep: char)
    ensures Join(Split(s, sep), sep) == s
    decreases |s|
  {
    if s != [] {
      var rest := Split(s[1..], sep);
      JoinSplit(s[1..], sep);
      if s[0] != sep {
        if |rest| == 1 {
          assert Split(s, sep) == [[s[0]] + rest[0]];
        } else {
          assert Split(s, sep)[1..] == rest[1..];
          assert Join(Split(s, sep), sep) == [s[0]] + rest[0] + [sep] + Join(rest[1..], sep);
        }
      } else {
        assert Split(s, sep)[1..] == rest;
      }
    }
  }

  /** A piece free of the separator stays whole. */
  lemma {:induction false} SplitNoSeparator(p: string, sep: char)
    requires sep !in p
    ensures Split(p, sep) == [p]
    decreases |p|
  {
    if p != [] {
      SplitNoSeparator(p[1..], sep);
      assert [p[0]] + p[1..] == p;
    }
  }

  /** Splitting `p + sep + t` cuts exactly after `p` when `p` is free of `sep`. */
  lemma {:induction false} SplitAfterPiece(p: string, t: string, sep: char)
    requires sep !in p
    ensures Split(p + [sep] + t, sep) == [p] + Split(t, sep)
    decreases |p|
  {
    if p == [] {
      assert p + [sep] + t == [sep] + t;
      assert ([sep] + t)[1..] == t;
    } else {
      var s := p + [sep] + t;
      assert s[1..] == p[1..] + [sep] + t;
      SplitAfterPiece(p[1..], t, sep);
      assert [p[0]] + p[1..] == p;
    }
  }

  /** Splitting joined separator-free pieces gives the pieces back. */
  lemma {:induction false} SplitJoin(parts: seq<string>, sep: char)
    requires |parts| >= 1
    requires forall k :: 0 <= k < |parts| ==> sep !in parts[k]
    ensures Split(Join(parts, sep), sep) == parts
    decreases |parts|
  {
    if |parts| == 1 {
      SplitNoSeparator(parts[0], sep);
    } else {
      SplitJoin(parts[1..], sep);
      SplitAfterPiece(parts[0], Join(parts[1..], sep), sep);
      assert [parts[0]] + parts[1..] == parts;
    }
  }

  // ---------------------------------------------------------------------
  // strings.Contains, strings.TrimLeft(s, "\n"), strings.Replace(s, nbsp, " ", -1)
  // ---------------------------------------------------------------------

  /** `pat` occurs in `s` starting at position `k`. */
  predicate OccursAt(s: string, pat: string, k: int)
  {
    0 <= k && k + |pat| <= |s| && s[k..k + |pat|] == pat
  }

  /** strings.Contains(s, pat), searched from the left. */
  function Contains(s: string, pat: string): (b: bool)
    ensures b <==> exists k :: OccursAt(s, pat, k)
    decreases |s|
  {
    if |pat| <= |s| && s[..|pat|] == pat then
      assert OccursAt(s, pat, 0);
      true
    else if s == [] then
      assert forall k :: !OccursAt(s, pat, k);
      false
    else
      var r := Contains(s[1..], pat);
      OccursAtTail(s, pat);
      if r then
        var k :| OccursAt(s[1..], pat, k);
        assert OccursAt(s, pat, k + 1);
        true
      else
        false
  }

  /** An occurrence at `k >= 1` in `s` is an occurrence at `k - 1` in its tail. */
  lemma OccursAtTail(s: string, pat: string)
    requires s != []
    ensures forall k :: 1 <= k ==> (OccursAt(s, pat, k) <==> OccursAt(s[1..], pat, k - 1))
  {
    forall k | 1 <= k
      ensures OccursAt(s, pat, k) <==> OccursAt(s[1..], pat, k - 1)
    {
      if k + |pat| <= |s| {
        var here, there := s[k..k + |pat|], s[1..][k - 1..k - 1 + |pat|];
        forall t | 0 <= t < |pat| ensures here[t] == there[t] {
          assert here[t] == s[k + t];
        }
        assert here == there;
      }
    }
  }

  /** strings.TrimLeft(s, "\n"): drop every leading line feed. */
  function TrimLeadingNewlines(s: string): (r: string)
    ensures |r| <= |s| && r == s[|s| - |r|..]
    ensures r == [] || r[0] != '\n'
    ensures forall k :: 0 <= k < |s| - |r| ==> s[k] == '\n'
    decreases |s|
  {
    if s != [] && s[0] == '\n' then TrimLeadingNewlines(s[1..]) else s
  }

  /** strings.Replace(s, nbsp, " ", -1): every no-break space becomes a space. */
  function ReplaceNoBreakSpaces(s: string): (r: string)
    ensures |r| == |s|
    ensures NoBreakSpace !in r
    ensures forall k :: 0 <= k < |s| && s[k] != NoBreakSpace ==> r[k] == s[k]
    ensures forall k :: 0 <= k < |s| && s[k] == NoBreakSpace ==> r[k] == ' '
    decreases |s|
  {
    if s == [] then []
    else [if s[0] == NoBreakSpace then ' ' else s[0]] + ReplaceNoBreakSpaces(s[1..])
  }

  // ---------------------------------------------------------------------
  // strconv.Atoi, with the error result discarded
  // ---------------------------------------------------------------------

  predicate IsDigit(c: char)
  {
    '0' <= c <= '9'
  }

  predicate AllDigits(s: string)
  {
    forall k :: 0 <= k < |s| ==> IsDigit(s[k])
  }

  /** The text strconv.Atoi accepts: an optional sign followed by at least one
      decimal digit. */
  predicate IsDecimal(s: string)
  {
    if |s| > 0 && (s[0] == '-' || s[0] == '+') then |s| > 1 && AllDigits(s[1..])
    else |s| > 0 && AllDigits(s)
  }

  function DigitValue(c: char): nat
    requires IsDigit(c)
  {
    c as int - '0' as int
  }

  /** The value of a string of decimal digits, most significant first. */
  function DigitsValue(s: string): nat
    requires AllDigits(s)
    decreases |s|
  {
    if s == [] then 0 else DigitsValue(s[..|s| - 1]) * 10 + DigitValue(s[|s| - 1])
  }

  /** strconv.Atoi(s) with its error discarded, as every caller here does:
      the signed decimal value, and 0 for anything Atoi rejects. */
  function Atoi(s: string): (n: int)
    ensures !IsDecimal(s) ==> n == 0
    ensures IsDecimal(s) && s[0] == '-' ==> n <= 0
    ensures IsDecimal(s) && s[0] != '-' ==> n >= 0
  {
    if !IsDecimal(s) then 0
    else if s[0] == '-' then -(DigitsValue(s[1..]) as int)
    else if s[0] == '+' then DigitsValue(s[1..])
    else DigitsValue(s)
  }

  /** The decimal text of a natural number, without sign or leading zeros;
      the reference against which Atoi is checked. */
  function DecimalString(n: nat): (s: string)
    ensures |s| > 0 && AllDigits(s)
    ensures |s| > 1 ==> s[0] != '0'
  {
    var last := ['0' + (n % 10) as char];
    if n < 10 then last else DecimalString(n / 10) + last
  }

  lemma {:induction false} DigitsValueOfDecimalString(n: nat)
    ensures DigitsValue(DecimalString(n)) == n
  {
    var s := DecimalString(n);
    if n >= 10 {
      DigitsValueOfDecimalString(n / 10);
      assert s[..|s| - 1] == DecimalString(n / 10);
    }
  }

  /** Atoi reads back the number DecimalString wrote, with or without a sign. */
  lemma AtoiDecimalString(n: nat)
    ensures Atoi(DecimalString(n)) == n
    ensures Atoi(['+'] + DecimalString(n)) == n
    ensures Atoi(['-'] + DecimalString(n)) == -(n as int)
  {
    var s := DecimalString(n);
    DigitsValueOfDecimalString(n);
    assert (['+'] + s)[1..] == s;
    assert (['-'] + s)[1..] == s;
  }
}
