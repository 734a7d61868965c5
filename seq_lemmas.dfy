/**
 * Identities about sequence concatenation and slicing that several proofs
 * rewrite with.
 */
module SeqLemmas {
  lemma ConcatAssoc<T>(a: seq<T>, b: seq<T>, c: seq<T>)
    ensures a + (b + c) == a + b + c
  {
  }

  lemma ConcatAssoc4<T>(a: seq<T>, b: seq<T>, c: seq<T>, d: seq<T>)
    ensures a + (b + c + d) == a + b + c + d
  {
  }

  /** Appending `added` moves it from the front of `walk` to the end of `before`. */
  lemma Reassociate<T>(before: seq<T>, added: seq<T>, after: seq<T>, rest: seq<T>, walk: seq<T>, target: seq<T>)
    requires before + walk == target && walk == added + rest && after == before + added
    ensures after + rest == target
  {
  }

  /** A slice of a slice is a slice of the original. */
  lemma SliceOfSlice<T>(s: seq<T>, lo: int, hi: int, i: int, j: int)
    requires 0 <= lo <= hi <= |s| && 0 <= i <= j <= hi - lo
    ensures s[lo..hi][i..j] == s[lo + i..lo + j]
  {
    forall k | 0 <= k < j - i ensures s[lo..hi][i..j][k] == s[lo + i..lo + j][k] {
      assert s[lo..hi][i + k] == s[lo + i + k];
    }
  }
}
