/** Generic facts about sequences that the probe and splice proofs share. */
module Sequences {

  lemma Associate<T>(a: seq<T>, b: seq<T>, c: seq<T>)
    ensures a + b + c == a + (b + c)
  {
  }

  /** Five pieces appended one after another equal their concatenation
      appended at once. */
  lemma Regroup<T>(p: seq<T>, a: seq<T>, b: seq<T>, c: seq<T>, d: seq<T>, e: seq<T>)
    ensures p + a + b + c + d + e == p + (a + b + c + d + e)
  {
  }

  /** A slice of a prefix of w is the same slice of w. */
  lemma SliceOfPrefix<T>(w: seq<T>, u: seq<T>, a: nat, b: nat)
    requires |u| <= |w| && w[..|u|] == u && a <= b <= |u|
    ensures w[a..b] == u[a..b]
  {
    assert forall i :: a <= i < b ==> w[i] == w[..|u|][i];
  }

  /** A block found in the middle part of a three-part sequence, behind a
      prefix of that part. */
  lemma BlockWithin<T>(e: seq<T>, h: seq<T>, all: seq<T>, t: seq<T>, upto: seq<T>, before: seq<T>, blk: seq<T>)
    requires e == h + all + t
    requires upto == before + blk && |upto| <= |all| && all[..|upto|] == upto
    ensures |h| + |before| + |blk| <= |e| - |t|
    ensures e[|h| + |before| .. |h| + |before| + |blk|] == blk
  {
    forall k | 0 <= k < |blk|
      ensures e[|h| + |before| + k] == blk[k]
    {
      assert e[|h| + |before| + k] == all[|before| + k] == upto[|before| + k];
    }
  }
}
