/**
 The save buffer of the SPI program: four parallel arrays of `flushEvery`
 (1000) entries indexed by `bufferIndex`, written to the file and reset as
 soon as they are full, with whatever is left written when the loop ends.
 The arrays are modelled as one sequence of readings; each full flush is
 recorded as one chunk of the rows it wrote.
 */
module SaveBuffer {
  import opened Base
  import opened Adxl345

  /** `buffer` is entries [0, bufferIndex); `flushed` holds the chunks the
      full flushes have written, in order; `total` is `totalSamples`. */
  datatype Buffered = Buffered(buffer: seq<Reading>, flushed: seq<seq<Reading>>, total: nat)

  const Empty: Buffered := Buffered([], [], 0)

  /** Every reading saved so far, written out or still buffered. */
  function Contents(b: Buffered): seq<Reading>
  {
    Concat(b.flushed) + b.buffer
  }

  /** The invariant at every check of the loop condition. */
  predicate Valid(b: Buffered)
  {
    && |b.buffer| < FlushEvery
    && (forall k :: 0 <= k < |b.flushed| ==> |b.flushed[k]| == FlushEvery)
    && b.total == |Contents(b)|
  }

  /** The readings among a sequence of read outcomes, in order. */
  function Successes(outcomes: seq<Option<Reading>>): (s: seq<Reading>)
    ensures |s| <= |outcomes|
  {
    if |outcomes| == 0 then []
    else (if outcomes[0].Some? then [outcomes[0].value] else []) + Successes(outcomes[1..])
  }

  lemma {:induction false} SuccessesAppend(a: seq<Option<Reading>>, b: seq<Option<Reading>>)
    ensures Successes(a + b) == Successes(a) + Successes(b)
  {
    if |a| > 0 {
      assert (a + b)[1..] == a[1..] + b;
      SuccessesAppend(a[1..], b);
    } else {
      assert a + b == b;
    }
  }

  /** The rest of one loop pass once the read is done: a successful read
      is stored and counted, then a full buffer is written and reset. */
  function Step(b: Buffered, read: Option<Reading>): (r: Buffered)
    requires Valid(b)
    ensures Valid(r)
    ensures Contents(r) == Contents(b) + (if read.Some? then [read.value] else [])
    ensures read.None? ==> r == b
    ensures |r.flushed| == |b.flushed| || |r.flushed| == |b.flushed| + 1
    ensures |r.flushed| == |b.flushed| + 1 ==>
      r.buffer == [] && r.flushed == b.flushed + [b.buffer + [read.value]]
  {
    var stored := if read.Some? then b.(buffer := b.buffer + [read.value], total := b.total + 1) else b;
    if |stored.buffer| >= FlushEvery then
      ConcatSnoc(stored.flushed, stored.buffer);
      stored.(buffer := [], flushed := stored.flushed + [stored.buffer])
    else stored
  }

  /** A sequence of loop passes. */
  function Run(b: Buffered, outcomes: seq<Option<Reading>>): (r: Buffered)
    requires Valid(b)
    ensures Valid(r)
    ensures Contents(r) == Contents(b) + Successes(outcomes)
    ensures |b.flushed| <= |r.flushed| && r.flushed[..|b.flushed|] == b.flushed
    decreases |outcomes|
  {
    if |outcomes| == 0 then b else Run(Step(b, outcomes[0]), outcomes[1..])
  }

  /** The rows in the file after the loop: the full flushes, then the
      remainder written at exit. */
  function Drain(b: Buffered): (rows: seq<Reading>)
    requires Valid(b)
    ensures |rows| == b.total == FlushEvery * |b.flushed| + |b.buffer|
    ensures rows[..FlushEvery * |b.flushed|] == Concat(b.flushed)
    ensures rows[FlushEvery * |b.flushed|..] == b.buffer
  {
    ConcatUniformLength(b.flushed, FlushEvery);
    Concat(b.flushed) + b.buffer
  }

  /** The counters agree with the contents: `totalSamples div 1000` full
      flushes, and a remainder of `totalSamples mod 1000` readings. */
  lemma Counts(b: Buffered)
    requires Valid(b)
    ensures |b.flushed| == b.total / FlushEvery
    ensures |b.buffer| == b.total % FlushEvery
  {
    ConcatUniformLength(b.flushed, FlushEvery);
  }

  /** Saving the outcomes of a sequence of reads from an empty buffer
      writes exactly the successful readings, in read order: nothing is
      lost, duplicated or reordered by buffering. Every full flush writes
      1000 rows and the remainder written at exit is less than 1000. */
  lemma NoLoss(outcomes: seq<Option<Reading>>)
    ensures Drain(Run(Empty, outcomes)) == Successes(outcomes)
    ensures Run(Empty, outcomes).total == |Successes(outcomes)|
    ensures |Run(Empty, outcomes).flushed| == |Successes(outcomes)| / FlushEvery
    ensures |Run(Empty, outcomes).buffer| == |Successes(outcomes)| % FlushEvery < FlushEvery
    ensures forall k :: 0 <= k < |Run(Empty, outcomes).flushed| ==> |Run(Empty, outcomes).flushed[k]| == FlushEvery
  {
    var b := Run(Empty, outcomes);
    assert Contents(Empty) == [];
    Counts(b);
  }

  /** The example of 2500 successful reads: two full flushes of 1000 and a
      remainder of 500. */
  lemma TwentyFiveHundred(outcomes: seq<Option<Reading>>)
    requires |Successes(outcomes)| == 2500
    ensures |Run(Empty, outcomes).flushed| == 2 && |Run(Empty, outcomes).buffer| == 500
  {
    NoLoss(outcomes);
  }
}
