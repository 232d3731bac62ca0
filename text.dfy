/** String and sequence helpers that stand for the parts of Go's `strings`
    package the crawler uses, stated over `seq<char>`. */
module Text {

  /** The elements of a sequence, as a set. */
  ghost function Elems<T>(s: seq<T>): set<T> {
    set x | x in s
  }

  /** No element occurs twice. */
  ghost predicate NoDup<T>(s: seq<T>) {
    forall i, j :: 0 <= i < j < |s| ==> s[i] != s[j]
  }

  /** `strings.HasSuffix`: a raw character suffix test, blind to dots and labels. */
  predicate HasSuffix(s: string, suffix: string) {
    |suffix| <= |s| && s[|s| - |suffix|..] == suffix
  }

  /** `strings.Contains`: `sub` occurs somewhere in `s` as a contiguous substring. */
  predicate Contains(s: string, sub: string) {
    exists i :: 0 <= i <= |s| && OccursAt(s, sub, i)
  }

  /** `sub` occurs in `s` starting at index `i`. */
  predicate OccursAt(s: string, sub: string, i: nat) {
    i + |sub| <= |s| && s[i..i + |sub|] == sub
  }

  /** `strings.Split(s, sep)[0]`: the text before the first `sep`, or all of `s`
      when `sep` does not occur. */
  function HeadOfSplit(s: string, sep: char): (r: string)
    ensures sep !in r
    ensures r <= s
    ensures |r| < |s| ==> s[|r|] == sep
  {
    if s == [] then []
    else if s[0] == sep then []
    else [s[0]] + HeadOfSplit(s[1..], sep)
  }

  /** `strings.ReplaceAll(s, from, to)` for one-character `from` and `to`. */
  function ReplaceChar(s: string, from: char, to: char): (r: string)
    ensures |r| == |s|
    ensures forall i :: 0 <= i < |s| ==> r[i] == (if s[i] == from then to else s[i])
  {
    if s == [] then []
    else [if s[0] == from then to else s[0]] + ReplaceChar(s[1..], from, to)
  }

  /** The first part of a split is determined by the text up to the separator:
      whatever follows an occurrence of `sep` does not matter. */
  lemma {:induction false} HeadOfSplitPrefix(a: string, sep: char, rest: string)
    requires sep !in a
    ensures HeadOfSplit(a + [sep] + rest, sep) == a
  {
    if a == [] {
      assert (a + [sep] + rest)[0] == sep;
    } else {
      assert (a + [sep] + rest)[1..] == a[1..] + [sep] + rest;
      HeadOfSplitPrefix(a[1..], sep, rest);
    }
  }

  lemma ElemsSnoc<T>(s: seq<T>, x: T)
    ensures Elems(s + [x]) == Elems(s) + {x}
  {
    assert forall y :: y in s + [x] <==> y in s || y == x;
  }

  /** Joining two duplicate-free sequences with no common element gives a
      duplicate-free sequence. */
  lemma AppendNoDup<T>(a: seq<T>, b: seq<T>)
    requires NoDup(a) && NoDup(b) && Elems(a) !! Elems(b)
    ensures NoDup(a + b)
  {
    forall i, j | 0 <= i < j < |a + b|
      ensures (a + b)[i] != (a + b)[j]
    {
      if i < |a| && j >= |a| {
        assert (a + b)[i] in Elems(a) && (a + b)[j] in Elems(b);
      }
    }
  }

  lemma AppendAssoc<T>(a: seq<T>, b: seq<T>, c: seq<T>)
    ensures a + b + c == a + (b + c)
  {
  }

  /** An element of a prefix is an element of the whole sequence. */
  lemma PrefixMember<T>(x: T, s: seq<T>, t: seq<T>)
    requires x in s && s <= t
    ensures x in t
  {
    var i :| 0 <= i < |s| && s[i] == x;
    assert t[i] == x;
  }
}
