/**
 * The string operations the path resolvers use on a dotted member name:
 * String.IndexOf, String.Split, and the Aggregate that re-joins a tail of
 * segments with '.'.
 */
module DottedNames {

  const Dot: char := '.'

  /** Number of occurrences of c in s. */
  function Occurrences(s: string, c: char): (n: nat)
    ensures n == 0 <==> c !in s
    ensures n <= |s|
  {
    if s == [] then 0
    else (if s[0] == c then 1 else 0) + Occurrences(s[1..], c)
  }

  /** String.IndexOf(c) when c occurs: the position of its first occurrence. */
  function IndexOf(s: string, c: char): (i: nat)
    requires c in s
    ensures i < |s| && s[i] == c
    ensures c !in s[..i]
  {
    if s[0] == c then 0
    else
      assert c in s[1..] by { assert s == [s[0]] + s[1..]; }
      var j := IndexOf(s[1..], c);
      assert s[..j + 1] == [s[0]] + s[1..][..j];
      j + 1
  }

  /** String.Split(c): the maximal runs between occurrences of c, empty
   *  runs included, so there is always at least one part. */
  function Split(s: string, c: char): (parts: seq<string>)
    ensures |parts| >= 1
    decreases |s|
  {
    if c !in s then [s]
    else
      var i := IndexOf(s, c);
      [s[..i]] + Split(s[i + 1..], c)
  }

  /** parts.Aggregate((a, i) => $"{a}{c}{i}"): a left fold, which the
   *  framework only allows on a non-empty sequence. */
  function Aggregate(parts: seq<string>, c: char): string
    requires |parts| >= 1
  {
    if |parts| == 1 then parts[0]
    else Aggregate(parts[..|parts| - 1], c) + [c] + parts[|parts| - 1]
  }

  /** Cutting s at the first occurrence of c removes exactly one occurrence. */
  lemma {:induction false} OccurrencesAfterFirst(s: string, c: char)
    requires c in s
    ensures Occurrences(s, c) == 1 + Occurrences(s[IndexOf(s, c) + 1..], c)
  {
    if s[0] != c {
      var t := s[1..];
      assert t[IndexOf(s, c) - 1] == c;
      var j := IndexOf(t, c);
      assert IndexOf(s, c) == j + 1;
      assert Occurrences(s, c) == Occurrences(t, c);
      OccurrencesAfterFirst(t, c);
      assert t[j + 1..] == s[j + 2..];
    }
  }

  /** Split yields one more part than there are separators. */
  lemma {:induction false} SplitCount(s: string, c: char)
    ensures |Split(s, c)| == Occurrences(s, c) + 1
    decreases |s|
  {
    if c in s {
      OccurrencesAfterFirst(s, c);
      SplitCount(s[IndexOf(s, c) + 1..], c);
    }
  }

  /** No part of a split contains the separator. */
  lemma {:induction false} SplitPartsHaveNoSeparator(s: string, c: char)
    ensures forall k :: 0 <= k < |Split(s, c)| ==> c !in Split(s, c)[k]
    decreases |s|
  {
    if c in s {
      SplitPartsHaveNoSeparator(s[IndexOf(s, c) + 1..], c);
    }
  }

  /** Aggregate is a left fold, but it also unfolds from the front. */
  lemma {:induction false} AggregateCons(head: string, rest: seq<string>, c: char)
    requires |rest| >= 1
    ensures Aggregate([head] + rest, c) == head + [c] + Aggregate(rest, c)
    decreases |rest|
  {
    var all := [head] + rest;
    if |rest| > 1 {
      assert all[..|all| - 1] == [head] + rest[..|rest| - 1];
      AggregateCons(head, rest[..|rest| - 1], c);
    }
  }

  /** A string is the text before position i, its character at i, and the
   *  text after. */
  lemma CutAt(s: string, i: nat)
    requires i < |s|
    ensures s[..i] + [s[i]] + s[i + 1..] == s
  {
  }

  /** Split on a string holding c: the text before the first c, then the
   *  parts of the text after it. */
  lemma SplitCons(s: string, c: char)
    requires c in s
    ensures Split(s, c) == [s[..IndexOf(s, c)]] + Split(s[IndexOf(s, c) + 1..], c)
  {
  }

  /** Re-joining the parts of a split gives back the original string. */
  lemma {:induction false} AggregateSplit(s: string, c: char)
    ensures Aggregate(Split(s, c), c) == s
    decreases |s|
  {
    if c in s {
      var i := IndexOf(s, c);
      var rest := s[i + 1..];
      var parts := Split(rest, c);
      SplitCons(s, c);
      AggregateSplit(rest, c);
      AggregateCons(s[..i], parts, c);
      CutAt(s, i);
    }
  }

  /** The split/join step of both resolvers: a name holding c has more than
   *  one part, its first part is the text before the first c, and joining
   *  the remaining parts gives exactly the text after it. */
  lemma {:induction false} SplitAtFirst(s: string, c: char)
    requires c in s
    ensures |Split(s, c)| > 1
    ensures Split(s, c)[0] == s[..IndexOf(s, c)]
    ensures Split(s, c)[1..] == Split(s[IndexOf(s, c) + 1..], c)
    ensures Aggregate(Split(s, c)[1..], c) == s[IndexOf(s, c) + 1..]
  {
    var i := IndexOf(s, c);
    assert Split(s, c)[1..] == Split(s[i + 1..], c);
    AggregateSplit(s[i + 1..], c);
  }

  /** A name with exactly one separator splits into the text before it and
   *  the text after it. */
  lemma SplitOnce(s: string, c: char, i: nat)
    requires i < |s| && s[i] == c && c !in s[..i] && c !in s[i + 1..]
    ensures Split(s, c) == [s[..i], s[i + 1..]]
  {
    assert IndexOf(s, c) == i;
  }
}
