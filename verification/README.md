# ADXL345 acquisition programs, modelled in Dafny

Two small C programs read an ADXL345 three-axis accelerometer on a
Raspberry Pi, one over SPI (`adxl345spi.c`, through pigpio) and one over
I2C (`adxl345i2c.c`, through `/dev/i2c-*`). Both parse a command line
(`-s/--save FILE`, `-f/--freq FREQ`), check the device identity byte
(0xE5), write three configuration registers, and then either print
readings live or save them to a CSV file until an interrupt, a `q` key
or, for I2C, a failed read.

This project models the logic inside that plumbing and proves what it
promises:

- **Adxl345**: register constants, the configuration sequence, the
  little-endian two's-complement decoding of each axis, and the scaling
  by `2*16/8192`. That factor is exactly 1/256.
- **SpiCommand**: the read and multi-byte flag bits that `readBytes` and
  `writeBytes` put on the command byte.
- **SpiOptions**: the SPI program's hand-written argument scanner. It
  rejects an out-of-range frequency.
- **I2cOptions**: the I2C program's handling of what `getopt_long`
  reports. It clamps the frequency and copies the save path with
  `strncpy` into a 256-byte buffer. Arguments and the path are byte
  strings.
- **I2cBus** and **Startup**: `adxl_read`'s failure rule, the
  identity check and the configuration writes, for both buses.
- **SaveBuffer** and **Pacing**: the SPI save loop's 1000-entry buffer
  and its drift-free `nextSample` schedule.
- **SpiLoop** and **I2cLoop**: the acquisition loops. Each is a fold over
  a sequence of events: an interrupt, or a pass with the pending key and
  the bus's answer.
- **Programs**: both programs end to end, as far as the exit status and
  the saved file go.

The bus, the clock, the keyboard, the file system and `atof` are inputs
of the model, never called.

Some consequences of the code that are easy to miss:

- The factor `2*16.0/8192.0` is exactly 1/256, so raw 32767 scales to
  127.99609375 (`Adxl345.ScaleExact`).
- Neither program checks the results of the configuration writes. A
  failed write is not fatal.
- The SPI loop skips a failed read and carries on, in both modes. Only the
  I2C loop stops at a failed read.
- After a failed read the I2C program exits with status 0
  (`Programs.I2cMain`, `Programs.I2cReadErrorExitsZero`).
- The SPI program discards cold-start reads only in live mode. Its save
  mode starts reading at once.
- The SPI configuration writes go through `writeBytes(h, data, 2)`. The
  count 2 sets the multi-byte flag, so the command bytes sent are 0x6C,
  0x71 and 0x6D (`SpiCommand.ConfigFrames`).

## Model

| member | source | states |
|---|---|---|
| Adxl345.ToInt16 | adxl345i2c.c:174 | the `int16_t` conversion gives the unique value in [-32768, 32767] congruent to the 16-bit pattern modulo 2^16 |
| Adxl345.WordIsShiftOr | adxl345i2c.c:174-176 | for bytes, shifting `hi` left by 8 and OR-ing in `lo` equals `hi*256 + lo`, and its low and high bytes give back `lo` and `hi` |
| Adxl345.Decode16 | adxl345i2c.c:174 | the decoded value is congruent to `hi*256 + lo` modulo 2^16, and is negative exactly when the top bit of the high byte is set |
| Adxl345.DecodeEncode16 | adxl345spi.c:169-171 | decoding the little-endian byte pair of any int16 value gives that value back |
| Adxl345.EncodeDecode16 | adxl345i2c.c:212-214 | every byte pair is the little-endian encoding of the value it decodes to, so decoding is a bijection |
| Adxl345.DecodeAxes | adxl345i2c.c:174-176 | the decoded sample encodes back to exactly the six bytes read: x, y, z, each low byte first |
| Adxl345.DecodeEncodeAxes | adxl345spi.c:234-236 | the three axes decoded from the six data-register bytes of a sample are that sample |
| Adxl345.EncodeDecodeAxes | adxl345i2c.c:174-176 | any six data bytes are the encoding of the sample they decode to |
| Adxl345.ScaleExact | adxl345spi.c:29 | the conversion factor is exactly 1/256; scaling times 256 is the raw value; results lie in [-128, 128-1/256], with 32767 giving 127.99609375 and -32768 giving -128 |
| Adxl345.ScaleInjective | adxl345i2c.c:28 | distinct raw values give distinct physical values |
| Adxl345.Scale | adxl345i2c.c:178-180 | the physical value times 256 is the raw value, and it lies in [-128, 128) |
| Adxl345.Convert | adxl345spi.c:172-174 | a reading keeps its timestamp, and each axis times 256 is the raw axis value |
| SpiCommand.ReadCommand | adxl345spi.c:65-69 | `readBytes` always sets the read bit, keeps the six address bits, and sets the multi-byte bit if `count > 1` (or it was already set) |
| SpiCommand.WriteCommand | adxl345spi.c:71-74 | `writeBytes` keeps the read bit and the address bits, sets the multi-byte bit if `count > 1`, and for `count <= 1` leaves the byte unchanged |
| SpiCommand.ReadFrame | adxl345spi.c:65-69 | a read transfer sends the first `count` bytes of the buffer with only the first byte changed, and that byte carries the read flag and keeps its address bits |
| SpiCommand.WriteFrame | adxl345spi.c:71-74 | a write sends exactly the first `count` bytes, with the rest unchanged and the first byte's address bits kept |
| SpiCommand.InterpretRead | adxl345spi.c:65-69 | for every six-bit register, the sensor sees a read of that register, multi-byte exactly when `count > 1` |
| SpiCommand.InterpretWrite | adxl345spi.c:71-74 | for every six-bit register, the sensor sees a write of that register, multi-byte exactly when `count > 1` |
| SpiCommand.IdFrameIsSingleRegisterRead | adxl345spi.c:117 | the identity command, DEVID with the read bit OR-ed in, is what `readBytes` would send for a one-byte read of DEVID |
| SpiCommand.SampleFrameReadsDataRegisters | adxl345spi.c:167-168 | the sample read sends 0xF2, a multi-byte read of DATAX0, whatever the buffer held before |
| SpiCommand.SampleFrame | adxl345spi.c:166-168 | the sample transfer sends 7 bytes: the command 0xF2, then bytes 1 to 6 of the buffer unchanged |
| SpiCommand.WriteFrameOfPair | adxl345spi.c:71-74 | a two-byte write sends the register with the multi-byte flag, then the value |
| SpiCommand.ConfigFrames | adxl345spi.c:135-143 | there is one configuration transfer per configuration pair, and they are exactly [0x6C,0x0F], [0x71,0x0B], [0x6D,0x08] |
| SpiCommand.ConfigFramesWriteConfiguration | adxl345spi.c:135-143 | the k-th configuration transfer is a two-byte multi-byte write of the k-th configured value to the k-th configured register |
| SpiOptions.ParseFrom | adxl345spi.c:84-108 | an accepted scan has a valid frequency and an even number of remaining arguments, keeps save mode once set, and an invalid-frequency error carries an out-of-range value |
| SpiOptions.Parse | adxl345spi.c:80-108 | accepted arguments give a frequency in [1, 3200]; no arguments give the defaults (live mode, 250 Hz) |
| SpiOptions.ParseUnparse | adxl345spi.c:84-108 | spelling out any list of accepted options and parsing it gives back their combined effect, applied first to last |
| SpiOptions.ParseSound | adxl345spi.c:84-108 | every argument list the parser accepts spells out a list of accepted options, and the result is their combined effect |
| SpiOptions.ApplyAppend | adxl345spi.c:84-108 | options after a prefix act on the configuration the prefix left |
| SpiOptions.LastOptionWins | adxl345spi.c:85-95 | an option given last overrides every earlier one: a final `-f` decides the frequency, a final `-s` decides the path and turns save mode on |
| SpiOptions.LastOptionsDecide | adxl345spi.c:85-95 | wherever the options stand, the last `-s` decides the path and turns save mode on, and the last `-f` decides the frequency; what no option names keeps its earlier setting, so `-s out.csv -f 3200` saves to `out.csv` |
| SpiOptions.ApplyFlags | adxl345spi.c:85-95 | save mode is on exactly when some option is a save option; save options alone leave the frequency unchanged, and frequency options alone leave save mode and the path unchanged |
| SpiOptions.ParseErrors | adxl345spi.c:87-107 | after accepted options, an unknown token or a flag with no value is a usage error, and an out-of-range frequency is an invalid-frequency error, whatever follows |
| I2cOptions.CString | adxl345i2c.c:119 | the string a buffer holds has no terminator, is a prefix of the buffer, and is followed by a terminator when shorter than the buffer |
| I2cOptions.CStringOfTerminated | adxl345i2c.c:119 | a buffer holding `s` followed by a terminator reads as `s` |
| I2cOptions.Strncpy | adxl345i2c.c:119 | the first `n` bytes become the source, padded with terminators when it is shorter; from `n` bytes on the buffer is unchanged, and a source of `n` bytes or more leaves no terminator |
| I2cOptions.StoredPath | adxl345i2c.c:119 | after `strncpy(vSave, optarg, 255)` the buffer still ends with a terminator and holds the first min(len, 255) bytes of the argument |
| I2cOptions.ClampFrequency | adxl345i2c.c:121-125 | the result is in [1, 3200], equals the input exactly when the input is in range, and is 1 below the range and 3200 above it |
| I2cOptions.ClampIsNearest | adxl345i2c.c:123-124 | the clamped frequency is the supported frequency nearest to the requested one |
| I2cOptions.ClampIdempotent | adxl345i2c.c:123-124 | clamping twice is clamping once |
| I2cOptions.ClampMonotone | adxl345i2c.c:123-124 | clamping keeps the order of frequencies |
| I2cOptions.Step | adxl345i2c.c:117-125 | a save option turns save mode on and leaves the argument truncated to 255 bytes as the stored path, keeping the frequency; a frequency option sets the clamped frequency and leaves save mode and the path alone |
| I2cOptions.HandleFrom | adxl345i2c.c:115-133 | option handling either runs with a valid frequency and a terminator-free path shorter than 256, or exits with 0 or 1 |
| I2cOptions.HandleOptions | adxl345i2c.c:103-133 | from the initial settings, a run has a valid frequency and a path that fits the buffer |
| I2cOptions.LastCons | adxl345i2c.c:115-125 | the last save and frequency options of a list with one more option in front are the list's own, or else that option |
| I2cOptions.HandleFromOptions | adxl345i2c.c:115-125 | with only save and frequency options, the outcome is the last path truncated, the last frequency clamped, and save mode if any path was given |
| I2cOptions.HandleOptionsOnly | adxl345i2c.c:103-125 | from the initial settings: save mode when a path was given, with that path truncated to 255 bytes; the last frequency clamped, or 250 Hz |
| I2cOptions.HandleStops | adxl345i2c.c:126-131 | the first help or unknown option ends option handling with exit code 0 or 1, whatever follows |
| I2cBus.AdxlRead | adxl345i2c.c:85-88 | a failed address write returns -1 without reading and leaves the buffer; otherwise the read is issued, a failed read returns -1, and a delivery returns its length with the bytes at the front of the buffer and the rest unchanged |
| I2cBus.ConfigFrames | adxl345i2c.c:80-148 | the k-th configuration write, one `adxl_write` of the k-th configuration pair, is the two bytes register, value of the k-th configuration pair, so the writes are exactly (0x2C,0x0F), (0x31,0x0B), (0x2D,0x08) |
| I2cBus.IdCheckPasses | adxl345i2c.c:138-139 | the identity check passes exactly when the address write succeeds and the read delivers the single byte 0xE5 |
| I2cBus.SampleRead | adxl345i2c.c:169-176 | a sample is read exactly when the address write succeeds and the read delivers 6 bytes, and it is their decoding |
| I2cBus.SampleReadRoundTrip | adxl345i2c.c:169-176 | a sensor holding sample `s` is read back as `s`, whatever the buffer held before |
| Startup.SpiStartup | adxl345spi.c:110-143 | start-up goes on exactly when pigpio starts, the identity transfer returns 2 bytes and the second is 0xE5; otherwise it returns 1, closing the device if it was opened; the identity transfer, sent once pigpio starts, is the two-byte single-register read of DEVID; going on sends the three configuration writes |
| Startup.I2cStartup | adxl345i2c.c:135-148 | start-up goes on exactly when the device opens and the identity read delivers 0xE5; otherwise it returns 1, closing the device if it was opened; the identity read, issued once the device opens, writes the register address DEVID; going on sends the three configuration writes |
| Startup.SameConfiguration | adxl345i2c.c:146-148 | both programs write the same values to the same registers in the same order |
| SaveBuffer.SuccessesAppend | adxl345spi.c:233-245 | the readings of two runs of reads are those of the first, then those of the second |
| SaveBuffer.Step | adxl345spi.c:233-253 | one pass keeps the buffer invariant, appends a successful reading to what is saved, leaves everything alone after a failed read, and on a full buffer writes a 1000-row chunk and empties the buffer |
| SaveBuffer.Run | adxl345spi.c:219-254 | a sequence of passes keeps the invariant, saves exactly the successful readings in order, and never rewrites a flushed chunk |
| SaveBuffer.Drain | adxl345spi.c:247-260 | the rows written by exit number `totalSamples`: first the 1000-row chunks of the full flushes in order, then the buffered remainder |
| SaveBuffer.Counts | adxl345spi.c:243-253 | there are `totalSamples div 1000` full flushes and `bufferIndex` is `totalSamples mod 1000` |
| SaveBuffer.NoLoss | adxl345spi.c:198-262 | from an empty buffer, the file rows are exactly the successful readings in read order; `totalSamples` counts them, every flush writes 1000 rows, and the remainder is below 1000 |
| SaveBuffer.TwentyFiveHundred | adxl345spi.c:247-259 | 2500 successful reads give two full flushes and a remainder of 500 |
| Pacing.AdvanceByShifts | adxl345spi.c:229 | `m` passes that read move the due time on by exactly `m` periods |
| Pacing.CatchUp | adxl345spi.c:219-229 | a loop late by `m` periods stays due for its next `m` reading passes, so it catches up instead of skipping due times; after those reads a pass is due again exactly when the clock has reached `m` periods past the old due time |
| Pacing.AdvanceOnSchedule | adxl345spi.c:217-229 | after k advances the due time is k periods, whatever the passes' timing |
| SpiLoop.DecodeFrame | adxl345spi.c:169-171 | the decoded sample encodes back to bytes 1 to 6 of the transfer |
| SpiLoop.DecodeFrameRoundTrip | adxl345spi.c:167-171 | a transfer carrying a sample's data bytes decodes to that sample, whatever its first byte |
| SpiLoop.Outcome | adxl345spi.c:168-174 | a transfer yields a reading exactly when it returned 7 bytes; the reading has the time taken after the transfer, and its axes are bytes 1-2, 3-4 and 5-6, low byte first, in units of 1/256 g |
| SpiLoop.LiveStep | adxl345spi.c:161-178 | one pass stops exactly on an interrupt or `q`, records and counts a reading after a 7-byte transfer, and changes nothing after a failed one |
| SpiLoop.AnyStopCons | adxl345spi.c:161-164 | some event stops the loop exactly when the first one does or a later one does |
| SpiLoop.LiveRun | adxl345spi.c:161-178 | from a running state, the loop prints exactly the successful readings before the first interrupt or `q`, counts them, and is still running exactly when there was none |
| SpiLoop.LiveSpec | adxl345spi.c:147-178 | live mode prints exactly the readings of the successful transfers before the first interrupt or `q`, in order; `samples` counts them; a failed transfer neither stops nor counts |
| SpiLoop.SaveStep | adxl345spi.c:219-254 | one pass keeps the loop invariant; a pass before the due time changes nothing; a due pass stops on `q`, otherwise it reads and advances the schedule; a failed read leaves the buffer unchanged |
| SpiLoop.SaveRun | adxl345spi.c:219-254 | a sequence of passes keeps the loop invariant and only appends to the passes that read |
| SpiLoop.SaveRunAdmits | adxl345spi.c:219-229 | from a running state, the passes that read are exactly those `Admitted` picks from the events (skip before the due time, stop on an interrupt or a due `q`, otherwise read and move the due time one period on), and the loop is still running exactly when `SaveStopped` says the events did not stop it |
| SpiLoop.SkippedPass | adxl345spi.c:219-221 | the induction step for a pass before the due time: it neither reads nor stops the loop |
| SpiLoop.ReadingPass | adxl345spi.c:222-231 | the induction step for a due pass without `q`: it reads once and the due time moves one period on |
| SpiLoop.SaveStartInv | adxl345spi.c:196-217 | the loop invariant holds at the first check: empty buffer, no reads, due time 0 |
| SpiLoop.SaveInvFacts | adxl345spi.c:198-259 | under the loop invariant, the file rows are the successful readings of the passes that read, the counters agree with them, and the due time is on schedule |
| SpiLoop.SaveSpec | adxl345spi.c:196-262 | save mode reads in exactly the passes `Admitted` picks out from the start (due time 0), stops exactly when `SaveStopped` says so, writes the header and then exactly the successful readings of those passes in read order; `totalSamples` counts them; `bufferIndex` stays below 1000; there are `totalSamples div 1000` full flushes; after k reading passes the due time is k periods, each pass having started no earlier than its due time |
| I2cLoop.Classify | adxl345i2c.c:164-176 | a check stops for an interrupt, for `q`, or for a read that did not deliver 6 bytes, and otherwise yields the decoded, scaled reading |
| I2cLoop.Samples | adxl345i2c.c:164-185 | the readings before the first stopping check are those of the maximal prefix of good passes, in order, and the check after them stops the loop |
| I2cLoop.SamplesCons | adxl345i2c.c:164-176 | a first check that stops the loop yields nothing and gives the stop reason; a first check that yields a reading puts it ahead of the rest's readings |
| I2cLoop.SamplesOfGoodReads | adxl345i2c.c:164-185 | a sensor answering with samples `ss` and then interrupted yields exactly those samples, and stops for the interrupt |
| I2cLoop.GoodRead | adxl345i2c.c:169-176 | a pass without a key press whose read delivers a sample's bytes yields that sample |
| I2cLoop.LiveStep | adxl345i2c.c:164-184 | one pass goes on exactly when it yields a reading, which it prints and counts; a stopping pass prints and counts nothing |
| I2cLoop.LiveRun | adxl345i2c.c:164-185 | from a running state, the loop prints and counts exactly the readings before the first stopping check |
| I2cLoop.LiveRunStatus | adxl345i2c.c:164-172 | from a running state, live mode ends for the reason of the first stopping check |
| I2cLoop.LiveSpec | adxl345i2c.c:161-187 | live mode prints exactly the readings before the first interrupt, `q` or failed read, in order; `samples` counts them; the loop ends for that reason |
| I2cLoop.SaveStep | adxl345i2c.c:202-223 | one pass writes and counts a reading or stops without writing; the file is flushed exactly when the count reaches a multiple of 1000 |
| I2cLoop.FlushScheduleStep | adxl345i2c.c:220-221 | one pass keeps the flushes at exactly the multiples of 1000 reached so far |
| I2cLoop.SaveRun | adxl345i2c.c:202-223 | from a running state, the loop writes and counts exactly the readings before the first stopping check |
| I2cLoop.SaveRunStatus | adxl345i2c.c:202-211 | from a running state, save mode ends for the reason of the first stopping check |
| I2cLoop.SaveRunFlushes | adxl345i2c.c:198-223 | the k-th flush happens when the k-th thousand rows is complete, and there are `totalSamples div 1000` of them |
| I2cLoop.SaveSpec | adxl345i2c.c:189-224 | the file is the header and then exactly the readings before the first interrupt, `q` or failed read, in order; `totalSamples` counts them; flushes happen at each multiple of 1000 |
| I2cLoop.PrefixSamples | adxl345i2c.c:207-211 | after good passes, a stopping check ends the readings whatever follows, and gives the stop reason |
| I2cLoop.ReadFailureEndsLoop | adxl345i2c.c:207-211 | in both modes, whatever follows a failed read is ignored, and the loop ends for the read failure |
| Programs.SpiMain | adxl345spi.c:76-272 | the SPI program exits with 0 exactly when the arguments parse, start-up succeeds and, in save mode, the file opens; the file it leaves is the save loop's |
| Programs.I2cMain | adxl345i2c.c:100-229 | the I2C program exits with the option code on help or an unknown option; otherwise it exits with 0 exactly when start-up succeeds and, in save mode, the file opens; the file it leaves is the save loop's |
| Programs.I2cReadErrorExitsZero | adxl345i2c.c:207-228 | after an I2C read error the program still exits with 0, and its file holds exactly the readings taken before the failed read |

## Left out

- Bus I/O is not modelled: the pigpio calls (`gpioInitialise`, `spiOpen`, `spiXfer`, `spiWrite`) and the I2C `open`, `ioctl`, `read` and `write`. Their return values and delivered bytes are inputs. `spiOpen`'s handle is not checked by the program; a bad handle shows up only as a failed identity transfer.
- The terminal is not modelled: `kbhit` and its settings, and the SIGINT handler. A pending key and an interrupt are fields of the loop events. A key other than `q`/`Q` is consumed and ignored, as in the code.
- Clocks and sleeping (`time_time`, `clock_gettime`, `time_sleep`, `usleep`) are not modelled. Time is an abstract real per event, so the I2C program's `usleep(delay)` pacing has no counterpart.
- Floating-point behaviour is left out. The model uses reals, not IEEE double rounding of `nextSample += delay`, and the `%.3f`/`%.5f`/`%.6f` formatting of rows is not modelled: rows are readings, not text. The printed summary line and its rate `samples / tElapsed` are also left out.
- `atof` is a parameter from text to real (a string for the SPI program, bytes for the I2C program). A NaN result would pass the SPI range check, since both comparisons are false; reals have no NaN.
- I2cOptions.ClampFrequency: reals have no NaN. A NaN from `atof` fails both comparisons at adxl345i2c.c:123-124 and would be kept as the frequency; the model always yields a frequency in [1, 3200].
- SaveBuffer.Step: `totalSamples` (adxl345spi.c:200) is a 32-bit `int`; the model counts without bound. Incrementing past 2^31-1 is undefined behaviour in C and is not modelled.
- SpiLoop.LiveStep: `samples` (adxl345spi.c:157) is a 32-bit `int`; the model counts without bound, so overflow past 2^31-1 is not modelled.
- I2cLoop.LiveStep: `samples` (adxl345i2c.c:163) is a 32-bit `int`; the model counts without bound, so overflow past 2^31-1 is not modelled.
- I2cLoop.SaveStep: `totalSamples` (adxl345i2c.c:199) is a 32-bit `int`; the model counts without bound. Past 2^31-1 the increment is undefined behaviour, and the flush test `totalSamples % flushEvery == 0` at adxl345i2c.c:221 would no longer flush every 1000 rows; the model's flush schedule holds only for unbounded counts.
- `getopt_long` is abstract. The I2C model starts from the sequence of items it reports; option clustering and argument permutation are its business. The usage text printed by `printUsage` is not modelled.
- The cold-start reads (`adxl345spi.c:148-152`, `adxl345i2c.c:150-155`) are not modelled. Their results are discarded and only cost bus traffic and a delay.
- The SPI program's `malloc` failure path (`adxl345spi.c:202-213`) is not modelled; memory exhaustion is outside the model.
- One case of undefined behaviour is not modelled: the unbounded `strcpy` into the 256-byte `vSave` in the SPI parser; the model keeps the whole path. Two implementation-defined choices are fixed as GCC on the Raspberry Pi's ARM makes them: plain `char data[7]` is unsigned, and narrowing a value of 0x8000 or more to `int16_t` wraps it modulo 2^16.
- File writes are modelled as always succeeding once the file is open. Only `fopen` success is an input.
- Programs.SpiMain and Programs.I2cMain give the exit status and the saved file only. What live mode prints is stated by `SpiLoop.LiveSpec` and `I2cLoop.LiveSpec`.
