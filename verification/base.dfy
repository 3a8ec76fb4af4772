/**
 Shared vocabulary of the model: unsigned bytes, optional values, results
 that carry an error, and the concatenation of a sequence of chunks (used to
 describe what a sequence of buffer flushes has written to a file).
 */
module Base {

  /** An unsigned 8-bit value, as read from the bus. */
  type byte = b: int | 0 <= b < 256

  datatype Option<+T> = None | Some(value: T)

  datatype Result<+T, +E> = Ok(value: T) | Err(error: E)

  /** The elements of all chunks, chunk after chunk. */
  function Concat<T>(chunks: seq<seq<T>>): seq<T>
  {
    if |chunks| == 0 then [] else Concat(chunks[..|chunks| - 1]) + chunks[|chunks| - 1]
  }

  /** Appending one chunk appends its elements to the concatenation. */
  lemma ConcatSnoc<T>(chunks: seq<seq<T>>, last: seq<T>)
    ensures Concat(chunks + [last]) == Concat(chunks) + last
  {
    assert (chunks + [last])[..|chunks|] == chunks;
  }

  /** When every chunk has `n` elements, the concatenation has `n` per chunk. */
  lemma {:induction false} ConcatUniformLength<T>(chunks: seq<seq<T>>, n: nat)
    requires forall k :: 0 <= k < |chunks| ==> |chunks[k]| == n
    ensures |Concat(chunks)| == n * |chunks|
  {
    if |chunks| > 0 {
      var init := chunks[..|chunks| - 1];
      ConcatUniformLength(init, n);
      assert |Concat(chunks)| == |Concat(init)| + n;
    }
  }
}
