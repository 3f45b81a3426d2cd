// Laws of sequences and bags that proofs name instead of leaving them to be rediscovered.

module Seqs {
  lemma Assoc<T>(a: seq<T>, b: seq<T>, c: seq<T>)
    ensures (a + b) + c == a + (b + c)
  {
  }

  lemma SliceOfTake<T>(s: seq<T>, n: nat, i: nat, j: nat)
    requires i <= j <= n <= |s|
    ensures s[..n][i..j] == s[i..j]
  {
  }

  lemma SliceOfSlice<T>(s: seq<T>, pos: nat, q: nat, i: nat, j: nat)
    requires pos <= q <= |s| && i <= j <= q - pos
    ensures s[pos..q][i..j] == s[pos + i..pos + j]
  {
    var a, b := s[pos..q][i..j], s[pos + i..pos + j];
    assert |a| == |b|;
    forall k | 0 <= k < |a| ensures a[k] == b[k] {
      assert a[k] == s[pos..q][i + k] == s[pos + (i + k)];
    }
  }

  /** A sequence cut at k, the second part split once more. */
  lemma CutTwice<T>(s: seq<T>, k: nat, b: seq<T>, c: seq<T>)
    requires k <= |s| && b + c == s[k..]
    ensures (s[..k] + b) + c == s
  {
    Assoc(s[..k], b, c);
  }

  /** Adding the same bag on both sides, behind the first summand of each. */
  lemma AddBehind<T>(a: multiset<T>, b: multiset<T>, c: multiset<T>, d: multiset<T>, e: multiset<T>)
    requires a + b == c + d
    ensures (a + e) + b == (c + e) + d
  {
    assert (a + e) + b == (a + b) + e && (c + e) + d == (c + d) + e;
  }
}
