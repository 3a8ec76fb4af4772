/**
 The acquisition loops of the I2C program, driven by a sequence of events:
 each event is one check of `keepRunning` together with what the keyboard
 and the bus answer during that pass. An interrupt clears `keepRunning`,
 so the loop ends at that check.

 Unlike the SPI program, both modes leave the loop at the first read that
 does not return 6 bytes ("I2C read error"). Live mode prints every
 reading; save mode writes every reading to the file as it comes and
 flushes the file whenever the row count reaches a multiple of 1000.
 */
module I2cLoop {
  import opened Base
  import opened Adxl345
  import I2cBus

  /** A check of the loop condition: an interrupt, or a pass with the
      pending key if any, what the write of the register address returned,
      what `read(2)` did, and the time taken after the read. */
  datatype Check = Interrupt | Pass(key: Option<char>, written: int, os: I2cBus.OsRead, at: real)

  /** `read(fd, data, 6)` never delivers more than the 6 bytes asked for. */
  type Event = e: Check | (e.Pass? && e.os.Delivered? ==> |e.os.bytes| <= 6) witness Interrupt

  /** Why the loop is over, or that it is not. */
  datatype Status = Running | Interrupted | QuitKey | ReadFailed

  /** The `uint8_t data[6]` of a pass is uninitialised; a successful read
      overwrites all of it, so its contents never matter. */
  const Stale: seq<byte> := [0, 0, 0, 0, 0, 0]

  /** What one check of the loop does: stop for a reason, or yield a
      reading. */
  datatype PassResult = Halt(reason: Status) | Sample(reading: Reading)

  function Classify(e: Event): (r: PassResult)
    ensures r.Halt? ==> r.reason != Running
    ensures r == Halt(Interrupted) <==> e.Interrupt?
    ensures r == Halt(QuitKey) <==> e.Pass? && IsQuitKey(e.key)
    ensures r.Sample? <==>
      e.Pass? && !IsQuitKey(e.key) && e.written == 1 && e.os.Delivered? && |e.os.bytes| == 6
    ensures r.Sample? ==> r.reading == Convert(e.at, DecodeAxes(e.os.bytes))
  {
    match e
    case Interrupt => Halt(Interrupted)
    case Pass(key, written, os, at) =>
      if IsQuitKey(key) then Halt(QuitKey)
      else match I2cBus.SampleRead(Stale, written, os)
        case None => Halt(ReadFailed)
        case Some(s) => Sample(Convert(at, s))
  }

  // ------------------------------------------------------- reference behaviour

  /** The readings of the passes before the first check that stops the loop. */
  function Samples(events: seq<Event>): (s: seq<Reading>)
    ensures |s| <= |events|
    ensures forall j :: 0 <= j < |s| ==> Classify(events[j]) == Sample(s[j])
    ensures |s| < |events| ==> Classify(events[|s|]).Halt?
  {
    if |events| == 0 then []
    else match Classify(events[0])
      case Halt(_) => []
      case Sample(rd) => [rd] + Samples(events[1..])
  }

  /** The reason of the first check that stops the loop; `Running` when none
      does. */
  function StopReason(events: seq<Event>): (s: Status)
  {
    var n := |Samples(events)|;
    if n < |events| then Classify(events[n]).reason else Running
  }

  /** The first check either stops the loop, which then yields nothing and
      stops for its reason, or yields a reading ahead of the rest. */
  lemma SamplesCons(events: seq<Event>)
    requires |events| > 0
    ensures Classify(events[0]).Halt? ==>
      Samples(events) == [] && StopReason(events) == Classify(events[0]).reason
    ensures Classify(events[0]).Sample? ==>
      Samples(events) == [Classify(events[0]).reading] + Samples(events[1..]) &&
      StopReason(events) == StopReason(events[1..])
  {
    if Classify(events[0]).Sample? {
      var n := |Samples(events[1..])|;
      assert n < |events[1..]| ==> events[n + 1] == events[1..][n];
    }
  }

  /** Regrouping one reading between the rows so far and the rest; as a
      lemma of its own it keeps this step out of the folds' proofs. */
  lemma AppendOne(rows: seq<Reading>, rd: Reading, rest: seq<Reading>)
    ensures (rows + [rd]) + rest == rows + ([rd] + rest)
  {
  }

  /** A sensor that keeps answering with samples `ss` and is then
      interrupted yields exactly those samples, and stops for the interrupt. */
  lemma {:induction false} SamplesOfGoodReads(ss: seq<RawSample>, ats: seq<real>)
    requires |ats| == |ss|
    ensures var events := GoodReads(ss, ats) + [Interrupt];
      Samples(events) == seq(|ss|, j requires 0 <= j < |ss| => Convert(ats[j], ss[j])) &&
      StopReason(events) == Interrupted
    decreases |ss|
  {
    var events := GoodReads(ss, ats) + [Interrupt];
    var expected := seq(|ss|, j requires 0 <= j < |ss| => Convert(ats[j], ss[j]));
    if |ss| == 0 {
      assert events == [Interrupt];
    } else {
      SamplesOfGoodReads(ss[1..], ats[1..]);
      assert events[0] == GoodRead(ss[0], ats[0]);
      assert events[1..] == GoodReads(ss[1..], ats[1..]) + [Interrupt];
      SamplesCons(events);
      assert Samples(events) == expected;
    }
  }

  /** A pass without a key press whose read delivers the bytes of `s`. */
  function GoodRead(s: RawSample, at: real): (e: Event)
    ensures Classify(e) == Sample(Convert(at, s))
  {
    DecodeEncodeAxes(s);
    Pass(None, 1, I2cBus.Delivered(EncodeAxes(s)), at)
  }

  function GoodReads(ss: seq<RawSample>, ats: seq<real>): (es: seq<Event>)
    requires |ats| == |ss|
    ensures |es| == |ss|
    ensures forall j :: 0 <= j < |es| ==> es[j] == GoodRead(ss[j], ats[j])
  {
    seq(|ss|, j requires 0 <= j < |ss| => GoodRead(ss[j], ats[j]))
  }

  // ---------------------------------------------------------------- live mode

  /** `samples`, the printed readings, and the loop's status. */
  datatype Live = Live(samples: nat, lines: seq<Reading>, status: Status)

  const LiveStart: Live := Live(0, [], Running)

  function LiveStep(st: Live, e: Event): (r: Live)
    requires st.status == Running
    ensures r.status == Running <==> Classify(e).Sample?
    ensures r.status != Running ==> r.lines == st.lines && r.samples == st.samples
    ensures r.status == Running ==> r.lines == st.lines + [Classify(e).reading] && r.samples == st.samples + 1
  {
    match Classify(e)
    case Halt(reason) => st.(status := reason)
    case Sample(rd) => Live(st.samples + 1, st.lines + [rd], Running)
  }

  /** The loop from a running state: it prints exactly the readings of the
      passes before the first interrupt, `q` or failed read, in order, and
      `samples` counts them. */
  function LiveRun(st: Live, events: seq<Event>): (r: Live)
    ensures st.status == Running ==> r.lines == st.lines + Samples(events)
    ensures st.status == Running ==> r.samples == st.samples + |Samples(events)|
    decreases |events|
  {
    if |events| == 0 || st.status != Running then st
    else
      SamplesCons(events);
      var next := LiveStep(st, events[0]);
      if next.status == Running then
        AppendOne(st.lines, Classify(events[0]).reading, Samples(events[1..]));
        LiveRun(next, events[1..])
      else
        assert st.lines + Samples(events) == st.lines;
        next
  }

  /** Live mode ends for the reason of the first stopping check. */
  lemma {:induction false} LiveRunStatus(st: Live, events: seq<Event>)
    requires st.status == Running
    ensures LiveRun(st, events).status == StopReason(events)
    decreases |events|
  {
    if |events| > 0 {
      SamplesCons(events);
      var next := LiveStep(st, events[0]);
      if next.status == Running {
        LiveRunStatus(next, events[1..]);
      }
    }
  }

  /** Live mode from the start: `samples` is the number of printed
      readings. */
  lemma LiveSpec(events: seq<Event>)
    ensures LiveRun(LiveStart, events).lines == Samples(events)
    ensures LiveRun(LiveStart, events).samples == |LiveRun(LiveStart, events).lines|
    ensures LiveRun(LiveStart, events).status == StopReason(events)
  {
    LiveRunStatus(LiveStart, events);
  }

  // ---------------------------------------------------------------- save mode

  /** The rows written after the header, `totalSamples`, the row counts at
      which the loop flushed the file, and the loop's status. */
  datatype Saving = Saving(rows: seq<Reading>, total: nat, flushedAt: seq<nat>, status: Status)

  const SaveStart: Saving := Saving([], 0, [], Running)

  /** The flushes the loop makes while writing `n` rows: one each time the
      count reaches a positive multiple of `flushEvery`. */
  predicate FlushesUpTo(flushedAt: seq<nat>, n: nat)
  {
    && |flushedAt| == n / FlushEvery
    && forall k :: 0 <= k < |flushedAt| ==> flushedAt[k] == (k + 1) * FlushEvery
  }

  function SaveStep(st: Saving, e: Event): (r: Saving)
    requires st.status == Running
    ensures r.status == Running <==> Classify(e).Sample?
    ensures r.status != Running ==> r.rows == st.rows && r.total == st.total && r.flushedAt == st.flushedAt
    ensures r.status == Running ==> r.rows == st.rows + [Classify(e).reading] && r.total == st.total + 1
    ensures r.flushedAt == st.flushedAt || r.flushedAt == st.flushedAt + [r.total]
    ensures r.flushedAt != st.flushedAt <==> r.total != st.total && r.total % FlushEvery == 0
  {
    match Classify(e)
    case Halt(reason) => st.(status := reason)
    case Sample(rd) =>
      var total := st.total + 1;
      Saving(st.rows + [rd], total, if total % FlushEvery == 0 then st.flushedAt + [total] else st.flushedAt, Running)
  }

  /** One pass keeps the flushes in step with the row count. */
  lemma FlushScheduleStep(st: Saving, e: Event)
    requires st.status == Running && FlushesUpTo(st.flushedAt, st.total)
    ensures FlushesUpTo(SaveStep(st, e).flushedAt, SaveStep(st, e).total)
  {
    var r := SaveStep(st, e);
    if r.total != st.total {
      assert r.total == st.total + 1;
      assert r.total / FlushEvery == st.total / FlushEvery + (if r.total % FlushEvery == 0 then 1 else 0);
      if r.total % FlushEvery == 0 {
        assert r.total == (|st.flushedAt| + 1) * FlushEvery;
      }
    }
  }

  /** The loop from a running state writes exactly the readings of the
      passes before the first interrupt, `q` or failed read, in order, and
      `totalSamples` counts them. */
  function SaveRun(st: Saving, events: seq<Event>): (r: Saving)
    ensures st.status == Running ==> r.rows == st.rows + Samples(events)
    ensures st.status == Running ==> r.total == st.total + |Samples(events)|
    decreases |events|
  {
    if |events| == 0 || st.status != Running then st
    else
      SamplesCons(events);
      var next := SaveStep(st, events[0]);
      if next.status == Running then
        AppendOne(st.rows, Classify(events[0]).reading, Samples(events[1..]));
        SaveRun(next, events[1..])
      else
        assert st.rows + Samples(events) == st.rows;
        next
  }

  /** Save mode ends for the reason of the first stopping check. */
  lemma {:induction false} SaveRunStatus(st: Saving, events: seq<Event>)
    requires st.status == Running
    ensures SaveRun(st, events).status == StopReason(events)
    decreases |events|
  {
    if |events| > 0 {
      SamplesCons(events);
      var next := SaveStep(st, events[0]);
      if next.status == Running {
        SaveRunStatus(next, events[1..]);
      }
    }
  }

  lemma {:induction false} SaveRunFlushes(st: Saving, events: seq<Event>)
    requires FlushesUpTo(st.flushedAt, st.total)
    ensures FlushesUpTo(SaveRun(st, events).flushedAt, SaveRun(st, events).total)
    decreases |events|
  {
    if |events| > 0 && st.status == Running {
      FlushScheduleStep(st, events[0]);
      SaveRunFlushes(SaveStep(st, events[0]), events[1..]);
    }
  }

  /** The file at exit: the header, then the rows in the order written. */
  function SaveFile(events: seq<Event>): SavedFile
  {
    SavedFile(CsvHeader, SaveRun(SaveStart, events).rows)
  }

  /** Save mode: the file is the header followed by exactly the readings of
      the passes before the first interrupt, `q` or failed read, in order;
      `totalSamples` counts them; the k-th flush in the loop happens when
      the k-th thousand rows is complete, so there are `totalSamples div
      1000` of them; the loop ends for the reason of the first stopping
      check. */
  lemma SaveSpec(events: seq<Event>)
    ensures SaveFile(events).header == CsvHeader
    ensures SaveFile(events).rows == Samples(events)
    ensures SaveRun(SaveStart, events).total == |SaveFile(events).rows|
    ensures FlushesUpTo(SaveRun(SaveStart, events).flushedAt, SaveRun(SaveStart, events).total)
    ensures SaveRun(SaveStart, events).status == StopReason(events)
  {
    SaveRunStatus(SaveStart, events);
    SaveRunFlushes(SaveStart, events);
  }

  /** A read failure is the last thing either loop looks at: whatever
      follows it is ignored, in both modes. */
  lemma ReadFailureEndsLoop(good: seq<Event>, bad: Event, rest: seq<Event>)
    requires forall j :: 0 <= j < |good| ==> Classify(good[j]).Sample?
    requires Classify(bad) == Halt(ReadFailed)
    ensures LiveRun(LiveStart, good + [bad] + rest) == LiveRun(LiveStart, good + [bad])
    ensures SaveRun(SaveStart, good + [bad] + rest) == SaveRun(SaveStart, good + [bad])
    ensures StopReason(good + [bad] + rest) == ReadFailed
  {
    PrefixSamples(good, bad, rest);
    PrefixSamples(good, bad, []);
    assert good + [bad] + [] == good + [bad];
    LiveSpec(good + [bad] + rest);
    LiveSpec(good + [bad]);
    SaveSpec(good + [bad] + rest);
    SaveSpec(good + [bad]);
  }

  lemma {:induction false} PrefixSamples(good: seq<Event>, bad: Event, rest: seq<Event>)
    requires forall j :: 0 <= j < |good| ==> Classify(good[j]).Sample?
    requires Classify(bad).Halt?
    ensures |Samples(good + [bad] + rest)| == |good|
    ensures Samples(good + [bad] + rest) == Samples(good + [bad])
    ensures StopReason(good + [bad] + rest) == Classify(bad).reason
    decreases |good|
  {
    var events := good + [bad] + rest;
    if |good| == 0 {
      assert events[0] == bad;
      assert (good + [bad])[0] == bad;
    } else {
      assert events[0] == good[0];
      assert (good + [bad])[0] == good[0];
      assert events[1..] == good[1..] + [bad] + rest;
      assert (good + [bad])[1..] == good[1..] + [bad];
      PrefixSamples(good[1..], bad, rest);
    }
  }
}
