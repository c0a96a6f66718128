/**
 * Polars' `concat` of a list of frames and Rust's `slice::chunks`, as the
 * data generator uses them to group stacks into output files.
 */
module Chunking {
  /** `concat` of a list of frames. */
  function Concat<T>(frames: seq<seq<T>>): seq<T>
  {
    if frames == [] then [] else frames[0] + Concat(frames[1..])
  }

  /** `slice.chunks(size)`: consecutive pieces of `size`, the last possibly shorter. */
  function Chunks<T>(xs: seq<T>, size: nat): (cs: seq<seq<T>>)
    requires size > 0
    ensures Concat(cs) == xs
    ensures forall i :: 0 <= i < |cs| ==> 0 < |cs[i]| <= size
    ensures forall i :: 0 <= i < |cs| - 1 ==> |cs[i]| == size
    decreases |xs|
  {
    if xs == [] then []
    else if |xs| <= size then
      assert Concat([xs]) == xs + Concat([xs][1..]);
      [xs]
    else
      var rest := Chunks(xs[size..], size);
      var cs := [xs[..size]] + rest;
      assert cs[0] == xs[..size] && cs[1..] == rest;
      assert Concat(cs) == xs[..size] + Concat(rest);
      assert xs[..size] + xs[size..] == xs;
      cs
  }

  /** There are ceil(|xs| / size) chunks: just enough to hold `xs`, and not one more. */
  lemma {:induction false} ChunkCount<T>(xs: seq<T>, size: nat)
    requires size > 0
    ensures |xs| <= |Chunks(xs, size)| * size
    ensures |Chunks(xs, size)| > 0 ==> (|Chunks(xs, size)| - 1) * size < |xs|
    decreases |xs|
  {
    if |xs| > size {
      var rest := Chunks(xs[size..], size);
      ChunkCount(xs[size..], size);
      assert Chunks(xs, size) == [xs[..size]] + rest;
      CountStep(|rest|, size, |xs|);
    }
  }

  /** One more chunk of `size` covers `size` more rows. */
  lemma CountStep(n: nat, size: nat, len: nat)
    requires size < len && len - size <= n * size && 0 < n && (n - 1) * size < len - size
    ensures len <= (n + 1) * size && n * size < len
  {
    assert (n + 1) * size == n * size + size;
    assert (n - 1) * size == n * size - size;
  }

  /** `concat` distributes over appending lists of frames. */
  lemma {:induction false} ConcatAppend<T>(a: seq<seq<T>>, b: seq<seq<T>>)
    ensures Concat(a + b) == Concat(a) + Concat(b)
  {
    if a == [] {
      assert a + b == b;
    } else {
      var ab := a + b;
      assert ab[0] == a[0] && ab[1..] == a[1..] + b;
      ConcatAppend(a[1..], b);
      assert Concat(ab) == a[0] + Concat(ab[1..]);
    }
  }

  /** Frames with the same rows, frame by frame, concatenate to the same rows. */
  lemma {:induction false} ConcatPermutation<T>(a: seq<seq<T>>, b: seq<seq<T>>)
    requires |a| == |b| && forall i :: 0 <= i < |a| ==> multiset(a[i]) == multiset(b[i])
    ensures multiset(Concat(a)) == multiset(Concat(b))
  {
    if a != [] {
      ConcatPermutation(a[1..], b[1..]);
    }
  }

  /** Concatenating the chunks' concatenations concatenates everything. */
  lemma {:induction false} ConcatOfChunks<T>(chunks: seq<seq<seq<T>>>, perChunk: seq<seq<T>>)
    requires |perChunk| == |chunks| && forall i :: 0 <= i < |chunks| ==> perChunk[i] == Concat(chunks[i])
    ensures Concat(perChunk) == Concat(Concat(chunks))
  {
    if chunks != [] {
      ConcatOfChunks(chunks[1..], perChunk[1..]);
      ConcatAppend(chunks[0], Concat(chunks[1..]));
    }
  }

  /** A row of a concatenation comes from some row `i` of some frame `k`. */
  lemma {:induction false} InConcat<T>(frames: seq<seq<T>>, x: T) returns (k: nat, i: nat)
    requires x in Concat(frames)
    ensures k < |frames| && i < |frames[k]| && frames[k][i] == x
  {
    if x in frames[0] {
      k := 0;
      i :| 0 <= i < |frames[0]| && frames[0][i] == x;
    } else {
      var k', i' := InConcat(frames[1..], x);
      k, i := k' + 1, i';
    }
  }
}
