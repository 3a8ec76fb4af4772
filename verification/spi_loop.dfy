/**
 The acquisition loops of the SPI program, driven by a sequence of events:
 each event is one check of `keepRunning` together with what the clock,
 the keyboard and the bus answer during that pass. An interrupt clears
 `keepRunning`, so the loop ends at that check.

 Live mode reads, prints and counts every sample whose transfer returned 7
 bytes and carries on after a failed one. Save mode first waits until the
 next due time (see Pacing), then checks for `q`, advances the due time,
 reads, and hands the outcome to the save buffer (see SaveBuffer).
 */
module SpiLoop {
  import opened Base
  import opened Adxl345
  import Pacing
  import SaveBuffer

  /** The `char data[7]` buffer of a sample read. */
  type Frame = s: seq<byte> | |s| == 7 witness [0, 0, 0, 0, 0, 0, 0]

  /** A sample transfer: what `readBytes(h, data, 7)` returned, the bytes
      left in `data`, and the time taken right after it. */
  datatype Xfer = Xfer(count: int, rx: Frame, at: real)

  /** One check of the loop condition. `Tick` carries the elapsed time
      seen at the top of the pass (save mode), the pending key if any, and
      the pass's transfer. */
  datatype Event = Interrupt | Tick(now: real, key: Option<char>, xfer: Xfer)

  /** The sample in a transfer: byte 0 is what came back while the command
      byte went out; bytes 1 to 6 are DATAX0 to DATAZ1. */
  function DecodeFrame(rx: Frame): (s: RawSample)
    ensures EncodeAxes(s) == rx[1..]
  {
    DecodeAxes(rx[1..])
  }

  /** Whatever the first byte, a transfer carrying the data-register bytes
      of a sample decodes to that sample. */
  lemma DecodeFrameRoundTrip(echo: byte, s: RawSample)
    ensures DecodeFrame([echo] + EncodeAxes(s)) == s
  {
    assert ([echo] + EncodeAxes(s))[1..] == EncodeAxes(s);
    DecodeEncodeAxes(s);
  }

  /** A transfer is used only when it returned exactly 7 bytes; its reading
      is stamped with the time taken after the transfer, and each axis is
      the 16-bit value of bytes 1-2, 3-4 and 5-6 (low byte first) in units
      of 1/256 g. */
  function Outcome(x: Xfer): (r: Option<Reading>)
    ensures r.Some? <==> x.count == 7
    ensures r.Some? ==> r.value.t == x.at
    ensures r.Some? ==>
      && r.value.x * 256.0 == Decode16(x.rx[1], x.rx[2]) as real
      && r.value.y * 256.0 == Decode16(x.rx[3], x.rx[4]) as real
      && r.value.z * 256.0 == Decode16(x.rx[5], x.rx[6]) as real
  {
    if x.count == 7 then Some(Convert(x.at, DecodeFrame(x.rx))) else None
  }

  // ---------------------------------------------------------------- live mode

  /** `samples`, the printed readings, and whether the loop goes on. */
  datatype Live = Live(samples: nat, lines: seq<Reading>, running: bool)

  const LiveStart: Live := Live(0, [], true)

  function LiveStep(st: Live, e: Event): (r: Live)
    requires st.running
    ensures !r.running <==> e.Interrupt? || IsQuitKey(e.key)
    ensures !r.running ==> r.lines == st.lines && r.samples == st.samples
    ensures r.running && e.xfer.count != 7 ==> r == st
    ensures r.running && e.xfer.count == 7 ==>
      r.lines == st.lines + [Outcome(e.xfer).value] && r.samples == st.samples + 1
  {
    match e
    case Interrupt => st.(running := false)
    case Tick(_, key, x) =>
      if IsQuitKey(key) then st.(running := false)
      else if x.count == 7 then Live(st.samples + 1, st.lines + [Outcome(x).value], true)
      else st
  }

  /** The outcomes of the reads issued before the first interrupt or `q`. */
  function LiveOutcomes(events: seq<Event>): seq<Option<Reading>>
  {
    if |events| == 0 || events[0].Interrupt? || IsQuitKey(events[0].key) then []
    else [Outcome(events[0].xfer)] + LiveOutcomes(events[1..])
  }

  predicate AnyStop(events: seq<Event>)
  {
    exists k :: 0 <= k < |events| && (events[k].Interrupt? || IsQuitKey(events[k].key))
  }

  /** Some event stops the loop exactly when the first one does or a later
      one does. */
  lemma AnyStopCons(events: seq<Event>)
    requires |events| > 0
    ensures AnyStop(events) <==>
      events[0].Interrupt? || IsQuitKey(events[0].key) || AnyStop(events[1..])
  {
    if AnyStop(events[1..]) {
      var k :| 0 <= k < |events[1..]| && (events[1..][k].Interrupt? || IsQuitKey(events[1..][k].key));
      assert events[k + 1] == events[1..][k];
    }
    if AnyStop(events) && !(events[0].Interrupt? || IsQuitKey(events[0].key)) {
      var k :| 0 <= k < |events| && (events[k].Interrupt? || IsQuitKey(events[k].key));
      assert k > 0;
      assert events[1..][k - 1] == events[k];
    }
  }

  /** The loop from a running state: it prints exactly the readings of the
      successful transfers before the first interrupt or `q`, in order,
      `samples` counts them, and it is still running exactly when no event
      stopped it. */
  function LiveRun(st: Live, events: seq<Event>): (r: Live)
    ensures st.running ==> r.lines == st.lines + SaveBuffer.Successes(LiveOutcomes(events))
    ensures st.running ==> r.samples == st.samples + |SaveBuffer.Successes(LiveOutcomes(events))|
    ensures st.running ==> (r.running <==> !AnyStop(events))
    decreases |events|
  {
    if !st.running then st
    else if |events| == 0 then
      assert !AnyStop(events);
      st
    else
      AnyStopCons(events);
      LiveRun(LiveStep(st, events[0]), events[1..])
  }

  /** Live mode from the start: a failed transfer neither stops the loop
      nor counts, so `samples` is the number of printed readings. */
  lemma LiveSpec(events: seq<Event>)
    ensures LiveRun(LiveStart, events).lines == SaveBuffer.Successes(LiveOutcomes(events))
    ensures LiveRun(LiveStart, events).samples == |LiveRun(LiveStart, events).lines|
    ensures LiveRun(LiveStart, events).running <==> !AnyStop(events)
  {
  }

  // ---------------------------------------------------------------- save mode

  /** A pass that went on to read: the time seen at its top and its
      transfer. */
  datatype Admission = Admission(now: real, xfer: Xfer)

  /** The pacing clock, the passes that read, the save buffer, and whether
      the loop goes on. */
  datatype Saving = Saving(clock: Pacing.Clock, admitted: seq<Admission>, buf: SaveBuffer.Buffered, running: bool)

  const SaveStart: Saving := Saving(Pacing.Start, [], SaveBuffer.Empty, true)

  function Delay(freq: real): real
    requires ValidFreq(freq)
  {
    1.0 / freq
  }

  function AdmittedOutcomes(adm: seq<Admission>): (r: seq<Option<Reading>>)
    ensures |r| == |adm|
    ensures forall j :: 0 <= j < |adm| ==> r[j] == Outcome(adm[j].xfer)
  {
    seq(|adm|, j requires 0 <= j < |adm| => Outcome(adm[j].xfer))
  }

  /** Every pass that read started no earlier than its due time: the j-th
      one at or after j periods. */
  predicate StartedWhenDue(adm: seq<Admission>, delay: real)
  {
    forall j :: 0 <= j < |adm| ==> adm[j].now >= j as real * delay
  }

  /** What holds at every check of the loop condition. */
  predicate SaveInv(st: Saving, delay: real)
  {
    && SaveBuffer.Valid(st.buf)
    && st.clock.ticks == |st.admitted|
    && Pacing.OnSchedule(st.clock, delay)
    && StartedWhenDue(st.admitted, delay)
    && SaveBuffer.Contents(st.buf) == SaveBuffer.Successes(AdmittedOutcomes(st.admitted))
  }

  function SaveStep(st: Saving, e: Event, freq: real): (r: Saving)
    requires ValidFreq(freq)
    requires st.running && SaveInv(st, Delay(freq))
    ensures SaveInv(r, Delay(freq))
    ensures !r.running <==> e.Interrupt? || (Pacing.Due(st.clock, e.now) && IsQuitKey(e.key))
    ensures e.Tick? && !Pacing.Due(st.clock, e.now) ==> r == st
    ensures |r.admitted| == |st.admitted| + 1 <==>
      e.Tick? && Pacing.Due(st.clock, e.now) && !IsQuitKey(e.key)
    ensures |r.admitted| == |st.admitted| + 1 ==> r.admitted == st.admitted + [Admission(e.now, e.xfer)]
    ensures |r.admitted| != |st.admitted| + 1 ==> r.admitted == st.admitted && r.buf == st.buf
    ensures e.Tick? && e.xfer.count != 7 ==> r.buf == st.buf
  {
    match e
    case Interrupt => st.(running := false)
    case Tick(now, key, x) =>
      if !Pacing.Due(st.clock, now) then st
      else if IsQuitKey(key) then st.(running := false)
      else
        var admitted := st.admitted + [Admission(now, x)];
        Pacing.AdvanceOnSchedule(st.clock, Delay(freq));
        SaveBuffer.SuccessesAppend(AdmittedOutcomes(st.admitted), [Outcome(x)]);
        assert AdmittedOutcomes(admitted) == AdmittedOutcomes(st.admitted) + [Outcome(x)];
        assert SaveBuffer.Successes([Outcome(x)]) == (if x.count == 7 then [Outcome(x).value] else []);
        Saving(Pacing.Advance(st.clock, Delay(freq)), admitted, SaveBuffer.Step(st.buf, Outcome(x)), true)
  }

  function SaveRun(st: Saving, events: seq<Event>, freq: real): (r: Saving)
    requires ValidFreq(freq)
    requires SaveInv(st, Delay(freq))
    ensures SaveInv(r, Delay(freq))
    ensures |st.admitted| <= |r.admitted| && r.admitted[..|st.admitted|] == st.admitted
    decreases |events|
  {
    if |events| == 0 || !st.running then st else SaveRun(SaveStep(st, events[0], freq), events[1..], freq)
  }

  /** The passes that read, worked out from the events alone when the next
      read is due at `due`: a pass before it is skipped, an interrupt or a
      due `q` ends the loop, and any other pass reads and makes the next
      read due one period later. */
  function Admitted(events: seq<Event>, due: real, delay: real): seq<Admission>
    decreases |events|
  {
    if |events| == 0 || events[0].Interrupt? then []
    else if events[0].now < due then Admitted(events[1..], due, delay)
    else if IsQuitKey(events[0].key) then []
    else [Admission(events[0].now, events[0].xfer)] + Admitted(events[1..], due + delay, delay)
  }

  /** Whether the events end the save loop when the next read is due at
      `due`: an interrupt, or `q` in a pass that is due. */
  predicate SaveStopped(events: seq<Event>, due: real, delay: real)
    decreases |events|
  {
    if |events| == 0 then false
    else if events[0].Interrupt? then true
    else if events[0].now < due then SaveStopped(events[1..], due, delay)
    else IsQuitKey(events[0].key) || SaveStopped(events[1..], due + delay, delay)
  }

  /** The save loop from a running state reads in exactly the passes
      `Admitted` picks out, and is still running exactly when the events
      did not stop it. */
  lemma {:induction false} SaveRunAdmits(st: Saving, events: seq<Event>, freq: real)
    requires ValidFreq(freq) && st.running && SaveInv(st, Delay(freq))
    ensures SaveRun(st, events, freq).admitted == st.admitted + Admitted(events, st.clock.nextSample, Delay(freq))
    ensures SaveRun(st, events, freq).running <==> !SaveStopped(events, st.clock.nextSample, Delay(freq))
    decreases |events|, 1
  {
    if |events| > 0 {
      var e := events[0];
      if e.Tick? && e.now < st.clock.nextSample {
        SkippedPass(st, events, freq);
      } else if e.Tick? && !IsQuitKey(e.key) {
        ReadingPass(st, events, freq);
      } else {
        assert SaveRun(st, events, freq) == SaveStep(st, e, freq);
      }
    }
  }

  /** The induction step for a pass that is not yet due. */
  lemma {:induction false} SkippedPass(st: Saving, events: seq<Event>, freq: real)
    requires ValidFreq(freq) && st.running && SaveInv(st, Delay(freq))
    requires |events| > 0 && events[0].Tick? && events[0].now < st.clock.nextSample
    ensures SaveRun(st, events, freq).admitted == st.admitted + Admitted(events, st.clock.nextSample, Delay(freq))
    ensures SaveRun(st, events, freq).running <==> !SaveStopped(events, st.clock.nextSample, Delay(freq))
    decreases |events|, 0
  {
    assert SaveStep(st, events[0], freq) == st;
    assert SaveRun(st, events, freq) == SaveRun(st, events[1..], freq);
    SaveRunAdmits(st, events[1..], freq);
  }

  /** The induction step for a due pass that reads. */
  lemma {:induction false} ReadingPass(st: Saving, events: seq<Event>, freq: real)
    requires ValidFreq(freq) && st.running && SaveInv(st, Delay(freq))
    requires |events| > 0 && events[0].Tick? && events[0].now >= st.clock.nextSample
    requires !IsQuitKey(events[0].key)
    ensures SaveRun(st, events, freq).admitted == st.admitted + Admitted(events, st.clock.nextSample, Delay(freq))
    ensures SaveRun(st, events, freq).running <==> !SaveStopped(events, st.clock.nextSample, Delay(freq))
    decreases |events|, 0
  {
    var e, rest, d := events[0], events[1..], Delay(freq);
    var next := SaveStep(st, e, freq);
    var a := Admission(e.now, e.xfer);
    assert next.admitted == st.admitted + [a] && next.running;
    assert next.clock.nextSample == st.clock.nextSample + d;
    assert SaveRun(st, events, freq) == SaveRun(next, rest, freq);
    SaveRunAdmits(next, rest, freq);
    assert Admitted(events, st.clock.nextSample, d) == [a] + Admitted(rest, st.clock.nextSample + d, d);
    assert st.admitted + ([a] + Admitted(rest, st.clock.nextSample + d, d))
        == (st.admitted + [a]) + Admitted(rest, st.clock.nextSample + d, d);
  }

  /** The file at exit: the header, the full flushes, then the remainder. */
  function SaveFile(events: seq<Event>, freq: real): SavedFile
    requires ValidFreq(freq)
  {
    SavedFile(CsvHeader, SaveBuffer.Drain(SaveRun(SaveStart, events, freq).buf))
  }

  /** What the invariant says about a state of the save loop: the file
      rows are the readings of the successful reads among the passes that
      read, the counters agree with them, and the due time is on schedule. */
  lemma SaveInvFacts(st: Saving, freq: real)
    requires ValidFreq(freq) && SaveInv(st, Delay(freq))
    ensures SaveBuffer.Drain(st.buf) == SaveBuffer.Successes(AdmittedOutcomes(st.admitted))
    ensures st.buf.total == |SaveBuffer.Drain(st.buf)|
    ensures |st.buf.buffer| < FlushEvery
    ensures |st.buf.flushed| == st.buf.total / FlushEvery
    ensures |st.buf.buffer| == st.buf.total % FlushEvery
    ensures st.clock.nextSample == |st.admitted| as real * Delay(freq)
  {
    SaveBuffer.Counts(st.buf);
  }

  /** Save mode: the passes that read are those `Admitted` picks out, the
      file holds exactly the readings of the successful transfers among
      them, in read order, and
      `totalSamples` counts them; `bufferIndex` stays below 1000, the full
      flushes number `totalSamples div 1000`, and the due time after k
      reading passes is k periods, each of those passes having started no
      earlier than its due time. */
  lemma SaveSpec(events: seq<Event>, freq: real)
    requires ValidFreq(freq)
    ensures SaveFile(events, freq).header == CsvHeader
    ensures SaveRun(SaveStart, events, freq).admitted == Admitted(events, 0.0, Delay(freq))
    ensures SaveRun(SaveStart, events, freq).running <==> !SaveStopped(events, 0.0, Delay(freq))
    ensures SaveFile(events, freq).rows ==
      SaveBuffer.Successes(AdmittedOutcomes(Admitted(events, 0.0, Delay(freq))))
    ensures SaveRun(SaveStart, events, freq).buf.total == |SaveFile(events, freq).rows|
    ensures |SaveRun(SaveStart, events, freq).buf.flushed| ==
      SaveRun(SaveStart, events, freq).buf.total / FlushEvery
    ensures |SaveRun(SaveStart, events, freq).buf.buffer| ==
      SaveRun(SaveStart, events, freq).buf.total % FlushEvery < FlushEvery
    ensures SaveRun(SaveStart, events, freq).clock.ticks == |SaveRun(SaveStart, events, freq).admitted|
    ensures Pacing.OnSchedule(SaveRun(SaveStart, events, freq).clock, Delay(freq))
    ensures StartedWhenDue(SaveRun(SaveStart, events, freq).admitted, Delay(freq))
  {
    SaveStartInv(freq);
    SaveRunAdmits(SaveStart, events, freq);
    var r := SaveRun(SaveStart, events, freq);
    SaveInvFacts(r, freq);
  }

  lemma SaveStartInv(freq: real)
    requires ValidFreq(freq)
    ensures SaveInv(SaveStart, Delay(freq))
  {
    assert SaveBuffer.Contents(SaveBuffer.Empty) == [];
    assert AdmittedOutcomes([]) == [];
  }
}
