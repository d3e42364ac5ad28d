/** Splitting a list into consecutive batches of a fixed size (`chunkArray`, and the batch loop of the ingestion script). */
module Chunking {

  function Min(a: int, b: int): int {
    if a <= b then a else b
  }

  /** The batches laid end to end. */
  function Concat<T>(xss: seq<seq<T>>): seq<T> {
    if |xss| == 0 then [] else Concat(xss[..|xss| - 1]) + xss[|xss| - 1]
  }

  lemma {:induction false} ConcatAppend<T>(a: seq<seq<T>>, b: seq<seq<T>>)
    ensures Concat(a + b) == Concat(a) + Concat(b)
    decreases |b|
  {
    if |b| == 0 {
      assert a + b == a;
    } else {
      var front := b[..|b| - 1];
      assert (a + b)[..|a + b| - 1] == a + front;
      assert (a + b)[|a + b| - 1] == b[|b| - 1];
      ConcatAppend(a, front);
      assert Concat(b) == Concat(front) + b[|b| - 1];
    }
  }

  /** One more batch from the front of `xss` appends that batch. */
  lemma ConcatPrefixStep<T>(xss: seq<seq<T>>, k: nat)
    requires k < |xss|
    ensures Concat(xss[..k + 1]) == Concat(xss[..k]) + xss[k]
  {
    assert xss[..k + 1][..k] == xss[..k];
  }

  /**
   * `chunkArray(xs, size)`: slices `xs[i .. i + size]` for i = 0, size, 2·size, ... while
   * i is inside the list. The batches put back together give the list; every batch is non-empty
   * and at most `size` long, and every batch but the last is exactly `size` long.
   */
  function Chunks<T>(xs: seq<T>, size: nat): (r: seq<seq<T>>)
    requires size > 0
    ensures Concat(r) == xs
    ensures forall i :: 0 <= i < |r| ==> 0 < |r[i]| <= size
    ensures forall i :: 0 <= i < |r| - 1 ==> |r[i]| == size
    ensures |r| == 0 <==> |xs| == 0
    decreases |xs|
  {
    if |xs| == 0 then []
    else if |xs| <= size then
      assert Concat([xs]) == Concat([xs][..0]) + xs;
      [xs]
    else
      var rest := Chunks(xs[size..], size);
      ConcatAppend([xs[..size]], rest);
      assert Concat([xs[..size]]) == Concat([xs[..size]][..0]) + xs[..size];
      [xs[..size]] + rest
  }

  /** Batch `i` is exactly the slice `xs[i·size .. min((i+1)·size, |xs|)]`, as the source's index loop takes it. */
  lemma {:induction false} ChunkIsSlice<T>(xs: seq<T>, size: nat, i: nat)
    requires size > 0
    requires i < |Chunks(xs, size)|
    ensures i * size < |xs|
    ensures Chunks(xs, size)[i] == xs[i * size..Min((i + 1) * size, |xs|)]
    decreases i
  {
    if i > 0 {
      assert |xs| > size;
      ChunksUnfold(xs, size);
      ChunkIsSlice(xs[size..], size, i - 1);
      ShiftedSlice(xs, size, i);
    } else {
      FirstChunk(xs, size);
    }
  }

  lemma FirstChunk<T>(xs: seq<T>, size: nat)
    requires size > 0 && |xs| > 0
    ensures 0 * size < |xs| && Chunks(xs, size)[0] == xs[0 * size..Min((0 + 1) * size, |xs|)]
  {
    MulStep(0, size);
    if |xs| > size {
      ChunksUnfold(xs, size);
    }
  }

  /** Batch `i - 1` of the list without its first batch is batch `i` of the list. */
  lemma ShiftedSlice<T>(xs: seq<T>, size: nat, i: nat)
    requires 0 < size < |xs| && 0 < i
    requires (i - 1) * size < |xs| - size
    ensures i * size < |xs|
    ensures xs[size..][(i - 1) * size..Min(i * size, |xs| - size)] == xs[i * size..Min((i + 1) * size, |xs|)]
  {
    var lo := (i - 1) * size;
    var hi := Min(i * size, |xs| - size);
    MulStep(i - 1, size);
    MulStep(i, size);
    assert hi + size == Min((i + 1) * size, |xs|);
    SliceShift(xs, size, lo, hi);
  }

  lemma ChunksUnfold<T>(xs: seq<T>, size: nat)
    requires 0 < size < |xs|
    ensures Chunks(xs, size) == [xs[..size]] + Chunks(xs[size..], size)
  {
  }

  lemma SliceShift<T>(xs: seq<T>, size: nat, lo: nat, hi: nat)
    requires size <= |xs| && lo <= hi <= |xs| - size
    ensures xs[size..][lo..hi] == xs[lo + size..hi + size]
  {
  }

  /** The number of batches is the length divided by the size, rounded up: just enough batches and none to spare. */
  lemma {:induction false} ChunkCount<T>(xs: seq<T>, size: nat)
    requires size > 0
    ensures |xs| <= |Chunks(xs, size)| * size
    ensures |Chunks(xs, size)| > 0 ==> (|Chunks(xs, size)| - 1) * size < |xs|
    decreases |xs|
  {
    if |xs| > size {
      var n := |Chunks(xs[size..], size)|;
      ChunkCount(xs[size..], size);
      assert |Chunks(xs, size)| == n + 1;
      MulStep(n, size);
      if n > 0 {
        MulStep(n - 1, size);
      }
    }
  }

  lemma MulStep(n: nat, size: nat)
    ensures n * size + size == (n + 1) * size
  {
  }
}
