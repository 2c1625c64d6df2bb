/** Small facts about sequences that the proofs use to avoid unfolding whole sequences. */
module Seqs {
  /** Dropping a, then n, elements drops a + n. */
  lemma DropDrop<T>(s: seq<T>, a: nat, n: nat)
    requires a + n <= |s|
    ensures s[a..][n..] == s[a + n..]
  {
  }

  /** Dropping the first part of a concatenation leaves the second. */
  lemma DropConcat<T>(x: seq<T>, y: seq<T>)
    ensures (x + y)[|x|..] == y
  {
  }

  /** A sequence split at j, and the first element and rest of its suffix. */
  lemma TakeDrop<T>(s: seq<T>, j: nat)
    requires j < |s|
    ensures s[..j] + s[j..] == s && s[j..][0] == s[j] && s[j..][1..] == s[j + 1..]
  {
  }

  /** The middle part of a three-part concatenation. */
  lemma MiddleOfConcat<T>(a: seq<T>, b: seq<T>, c: seq<T>)
    ensures (a + (b + c))[|a|..|a| + |b|] == b
  {
  }

  /** A slice of a slice is a slice at the sum of the offsets. */
  lemma SliceOfSlice<T>(s: seq<T>, a: int, b: int, c: int, n: int)
    requires 0 <= a <= b <= |s| && 0 <= c && 0 <= n && c + n <= b - a
    ensures s[a..b][c..c + n] == s[a + c..a + c + n]
  {
    var x := s[a..b][c..c + n];
    var y := s[a + c..a + c + n];
    forall k | 0 <= k < n ensures x[k] == y[k] {
      assert s[a..b][c + k] == s[a + c + k];
    }
  }

  /** Membership in a non-empty sequence: its head or its tail. */
  lemma InCons<T>(s: seq<T>, x: T)
    requires s != []
    ensures x in s <==> s[0] == x || x in s[1..]
  {
    assert s == [s[0]] + s[1..];
  }

  /** Re-associating a four-part concatenation. */
  lemma ConcatAssoc<T>(a: seq<T>, b: seq<T>, c: seq<T>, d: seq<T>)
    ensures (a + b + c) + d == a + (b + c + d)
  {
  }

  /** Putting a non-empty sequence back together from its head and tail. */
  lemma ConsAssoc<T>(a: seq<T>, s: seq<T>)
    requires s != []
    ensures a + [s[0]] + s[1..] == a + s
  {
    assert s == [s[0]] + s[1..];
  }

  /** Two sequences that agree element by element are equal. */
  lemma SameElements<T>(a: seq<T>, b: seq<T>)
    requires |a| == |b| && forall k :: 0 <= k < |a| ==> a[k] == b[k]
    ensures a == b
  {
  }
}
