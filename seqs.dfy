/** Sequences standing for the source's hash sets: duplicate-free, in an arbitrary but fixed order. */
module Seqs {

  ghost predicate NoDuplicates<T>(s: seq<T>)
  {
    forall i, j :: 0 <= i < j < |s| ==> s[i] != s[j]
  }

  /** The elements of `s` with later repetitions dropped (the order a set of `s` is enumerated in). */
  function Dedup<T(==)>(s: seq<T>): (r: seq<T>)
    ensures NoDuplicates(r)
    ensures forall i :: 0 <= i < |r| ==> r[i] in s
    ensures forall i :: 0 <= i < |s| ==> s[i] in r
    ensures |r| <= |s|
  {
    if s == [] then []
    else
      var front := Dedup(s[..|s| - 1]);
      var last := s[|s| - 1];
      assert forall i :: 0 <= i < |s| - 1 ==> s[i] == s[..|s| - 1][i];
      if last in front then front else front + [last]
  }

  /** The prefix of length i + 1 is the prefix of length i and element i, proved apart from any caller's
      heap so that the caller's verification condition stays small. */
  lemma TakeNext<T>(s: seq<T>, i: int)
    requires 0 <= i < |s|
    ensures s[..i + 1] == s[..i] + [s[i]]
  {
  }

  /** Replacing the element just past a processed prefix extends the prefix by one. */
  lemma ReplaceNext<T>(done: seq<T>, s: seq<T>, e: T)
    requires |done| < |s|
    ensures (done + s[|done|..])[|done| := e] == (done + [e]) + s[|done| + 1..]
  {
  }

  /** Appending two sequences one after the other appends their concatenation. */
  lemma AppendTwice<T>(a: seq<T>, b: seq<T>, c: seq<T>)
    ensures a + b + c == a + (b + c)
  {
  }

  /** Adding four elements one after the other appends the four of them. */
  lemma AppendFour<T>(s: seq<T>, a: T, b: T, c: T, d: T)
    ensures s + [a] + [b] + [c] + [d] == s + [a, b, c, d]
  {
  }

  /** Building a set from a sequence without repetitions keeps it as it is. */
  lemma {:induction false} DedupKeeps<T>(s: seq<T>)
    requires NoDuplicates(s)
    ensures Dedup(s) == s
  {
    if s != [] {
      var n := |s| - 1;
      var front := s[..n];
      assert NoDuplicates(front) by {
        assert forall k :: 0 <= k < n ==> front[k] == s[k];
      }
      DedupKeeps(front);
      assert s[n] !in front by {
        assert forall k :: 0 <= k < n ==> front[k] == s[k] != s[n];
      }
      assert front + [s[n]] == s;
    }
  }
}
