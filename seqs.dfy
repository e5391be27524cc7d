/** Small facts about sequences that the rest of the model leans on. */
module Seqs {
  /** Concatenation regroups to the right. */
  lemma Regroup<T>(x: seq<T>, y: seq<T>, z: seq<T>)
    ensures x + y + z == x + (y + z)
  {
  }

  /** Four pieces nested to the right, with an empty end, are the four pieces in a row. */
  lemma RegroupFour<T>(a: seq<T>, b: seq<T>, c: seq<T>, d: seq<T>)
    ensures a + (b + (c + (d + []))) == a + b + c + d
  {
    assert d + [] == d;
  }

  /** Five pieces in a row, nested to the right. */
  lemma RegroupFive<T>(a: seq<T>, b: seq<T>, c: seq<T>, d: seq<T>, e: seq<T>)
    ensures a + b + c + d + e == a + (b + (c + (d + e)))
  {
  }

  /** A slice of a slice is a slice of the whole. */
  lemma SliceOfSlice<T>(s: seq<T>, i: int, j: int, k: int, l: int)
    requires 0 <= i <= j <= |s| && 0 <= k <= l <= j - i
    ensures s[i..j][k..l] == s[i + k..i + l]
  {
    assert |s[i..j][k..l]| == |s[i + k..i + l]|;
    forall m | 0 <= m < l - k ensures s[i..j][k..l][m] == s[i + k..i + l][m] {
      assert s[i..j][k..l][m] == s[i..j][k + m] == s[i + k + m];
    }
  }

  /** Where `r` occurs in `fs`. */
  lemma IndexOf<T>(fs: seq<T>, r: T) returns (i: int)
    requires r in fs
    ensures 0 <= i < |fs| && fs[i] == r
  {
    i :| 0 <= i < |fs| && fs[i] == r;
  }
}
