/** Splitting a list into consecutive slices: `Adapter._batch_users` and
    `data_generator` both walk `range(0, len(obj), size)` and yield
    `obj[start:start + size]`. */
module Chunking {
  import opened Strings
  import opened Arith

  function Min(a: int, b: int): int
  {
    if a <= b then a else b
  }

  /** The slices `s[0:size]`, `s[size:2*size]`, ... up to the end of `s`; a slice
      reaching past the end is cut there, so the last one may be shorter. */
  function Chunks<T>(s: seq<T>, size: nat): (r: seq<seq<T>>)
    requires size > 0
    ensures r == [] <==> s == []
    ensures forall k :: 0 <= k < |r| ==> 0 < |r[k]| <= size
    ensures forall k :: 0 <= k < |r| - 1 ==> |r[k]| == size
    decreases |s|
  {
    if s == [] then []
    else if |s| <= size then [s]
    else [s[..size]] + Chunks(s[size..], size)
  }

  /** There are `ceil(len(s) / size)` slices, as many as `range(0, len(s), size)` has steps. */
  lemma {:induction false} ChunksCount<T>(s: seq<T>, size: nat)
    requires size > 0
    ensures |Chunks(s, size)| == (|s| + size - 1) / size
    decreases |s|
  {
    if s == [] {
      assert (size - 1) / size == 0;
    } else if |s| <= size {
      DivUnique(|s| + size - 1, size, 1, |s| - 1);
    } else {
      ChunksCount(s[size..], size);
      DivStep(|s| - 1, size);
    }
  }

  /** Joining the slices back together gives the input. */
  lemma {:induction false} ChunksConcat<T>(s: seq<T>, size: nat)
    requires size > 0
    ensures Concat(Chunks(s, size)) == s
    decreases |s|
  {
    if s == [] {
    } else if |s| <= size {
      assert Concat([s]) == s + Concat<T>([]);
    } else {
      var r := Chunks(s, size);
      assert r[1..] == Chunks(s[size..], size);
      ChunksConcat(s[size..], size);
      assert s[..size] + s[size..] == s;
    }
  }

  lemma MulPred(k: nat, size: nat)
    requires k > 0
    ensures (k - 1) * size + size == k * size
  {
  }

  /** Slice `k` is `s[k*size : k*size + size]` with Python's clipping at the end. */
  lemma {:induction false} ChunkAt<T>(s: seq<T>, size: nat, k: nat)
    requires size > 0 && k < |Chunks(s, size)|
    ensures k * size < |s|
    ensures Chunks(s, size)[k] == s[k * size .. Min(k * size + size, |s|)]
    decreases |s|
  {
    if |s| <= size {
      assert k == 0;
    } else if k > 0 {
      var rest := s[size..];
      assert Chunks(s, size)[k] == Chunks(rest, size)[k - 1];
      ChunkAt(rest, size, k - 1);
      var j := (k - 1) * size;
      MulPred(k, size);
      assert j + size == k * size;
      assert rest[j .. Min(j + size, |rest|)] == s[j + size .. Min(j + size + size, |s|)];
    }
  }

  /** `data_generator(data)`: the rows sent to one SQLite insert at a time, in
      slices of 90 (the variable limit of a statement). */
  function DataGenerator<T>(data: seq<T>): (r: seq<seq<T>>)
    ensures Concat(r) == data
    ensures forall k :: 0 <= k < |r| ==> 0 < |r[k]| <= 90
    ensures r == [] <==> data == []
  {
    ChunksConcat(data, 90);
    Chunks(data, 90)
  }
}
