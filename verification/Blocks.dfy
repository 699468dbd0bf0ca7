/** Consecutive blocks: a list of lists laid out flat, and who owns which place. */
module Blocks {
  function Flatten<T>(xs: seq<seq<T>>): seq<T> {
    if xs == [] then [] else Flatten(xs[..|xs| - 1]) + xs[|xs| - 1]
  }

  /** Where block i starts. */
  function Offset<T>(xs: seq<seq<T>>, i: nat): nat
    requires i <= |xs|
  {
    if i == 0 then 0 else Offset(xs, i - 1) + |xs[i - 1]|
  }

  lemma OffsetPrefix<T>(xs: seq<seq<T>>, n: nat, i: nat)
    requires i <= n <= |xs|
    ensures Offset(xs[..n], i) == Offset(xs, i)
  {
    if i > 0 {
      OffsetPrefix(xs, n, i - 1);
    }
  }

  lemma {:induction false} FlattenLength<T>(xs: seq<seq<T>>)
    ensures |Flatten(xs)| == Offset(xs, |xs|)
  {
    if xs != [] {
      FlattenLength(xs[..|xs| - 1]);
      OffsetPrefix(xs, |xs| - 1, |xs| - 1);
    }
  }

  lemma OffsetMonotone<T>(xs: seq<seq<T>>, i: nat, j: nat)
    requires i <= j <= |xs|
    ensures Offset(xs, i) <= Offset(xs, j)
  {
    if i < j {
      OffsetMonotone(xs, i, j - 1);
    }
  }

  /** Element j of block i is at offset i plus j. */
  lemma {:induction false} FlattenAt<T>(xs: seq<seq<T>>, i: nat, j: nat)
    requires i < |xs| && j < |xs[i]|
    ensures Offset(xs, i) + j < |Flatten(xs)|
    ensures Flatten(xs)[Offset(xs, i) + j] == xs[i][j]
  {
    var n := |xs| - 1;
    FlattenLength(xs[..n]);
    OffsetPrefix(xs, n, n);
    if i < n {
      FlattenAt(xs[..n], i, j);
      OffsetPrefix(xs, n, i);
    }
  }

  /** The block that holds place k. */
  function Owner<T>(xs: seq<seq<T>>, k: nat): (i: nat)
    requires k < Offset(xs, |xs|)
    ensures i < |xs| && Offset(xs, i) <= k < Offset(xs, i + 1)
    decreases |xs|
  {
    var n := |xs| - 1;
    if Offset(xs, n) <= k then n
    else
      OffsetsPrefix(xs, n);
      Owner(xs[..n], k)
  }

  lemma OffsetsPrefix<T>(xs: seq<seq<T>>, n: nat)
    requires n <= |xs|
    ensures forall i :: 0 <= i <= n ==> Offset(xs[..n], i) == Offset(xs, i)
  {
    forall i | 0 <= i <= n
      ensures Offset(xs[..n], i) == Offset(xs, i)
    {
      OffsetPrefix(xs, n, i);
    }
  }

  /** No two blocks share a place: the owner is unique. */
  lemma OwnerUnique<T>(xs: seq<seq<T>>, k: nat, i: nat)
    requires i < |xs| && Offset(xs, i) <= k < Offset(xs, i + 1)
    ensures k < Offset(xs, |xs|) && Owner(xs, k) == i
  {
    OffsetMonotone(xs, i + 1, |xs|);
    var o := Owner(xs, k);
    if o < i {
      OffsetMonotone(xs, o + 1, i);
    } else if i < o {
      OffsetMonotone(xs, i + 1, o);
    }
  }

  lemma FlattenSnoc<T>(xs: seq<seq<T>>, x: seq<T>)
    ensures Flatten(xs + [x]) == Flatten(xs) + x
    ensures Offset(xs + [x], |xs|) == Offset(xs, |xs|)
    ensures Offset(xs + [x], |xs| + 1) == Offset(xs, |xs|) + |x|
  {
    assert (xs + [x])[..|xs|] == xs;
    OffsetPrefix(xs + [x], |xs|, |xs|);
  }
}
