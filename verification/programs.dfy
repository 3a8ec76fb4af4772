/**
 The two programs end to end: option handling, start-up, opening the save
 file, and the acquisition loop, as far as the exit status and the saved
 file are concerned. The bus, the file system and the loop's events are
 inputs.

 In both programs the results of the configuration writes are not looked
 at, and once the loop has started the exit status is 0 whatever ended
 it; in the I2C program that includes a failed read.
 */
module Programs {
  import opened Base
  import opened Adxl345
  import SpiOptions
  import I2cOptions
  import I2cBus
  import Startup
  import SpiLoop
  import I2cLoop

  /** The exit status, and the file written in save mode. */
  datatype Finish = Finish(code: int, file: Option<SavedFile>)

  /** The SPI program. `gpioInit`, `idCount` and `idRx` are what the bus
      answered during start-up, `fopenOk` whether the save file could be
      opened, and `events` what the loop saw. */
  function SpiMain(args: seq<string>, atof: string -> real, gpioInit: int, idCount: int, idRx: seq<bv8>,
                   fopenOk: bool, events: seq<SpiLoop.Event>): (r: Finish)
    requires |idRx| == 2
    ensures r.code == 0 || r.code == 1
    ensures r.code == 0 <==>
      && SpiOptions.Parse(args, atof).Ok?
      && Startup.SpiStartup(gpioInit, idCount, idRx).Proceed?
      && (SpiOptions.Parse(args, atof).value.save ==> fopenOk)
    ensures r.file.Some? <==> r.code == 0 && SpiOptions.Parse(args, atof).value.save
    ensures r.file.Some? ==>
      ValidFreq(SpiOptions.Parse(args, atof).value.freq) &&
      r.file.value == SpiLoop.SaveFile(events, SpiOptions.Parse(args, atof).value.freq)
  {
    match SpiOptions.Parse(args, atof)
    case Err(_) => Finish(1, None)
    case Ok(cfg) =>
      match Startup.SpiStartup(gpioInit, idCount, idRx)
      case Abort(code, _, _) => Finish(code, None)
      case Proceed(_, _) =>
        if !cfg.save then Finish(0, None)
        else if !fopenOk then Finish(1, None)
        else Finish(0, Some(SpiLoop.SaveFile(events, cfg.freq)))
  }

  /** The I2C program. `items` is what `getopt_long` reported; `initOk`,
      `written` and `os` are what start-up saw; `fopenOk` whether the save
      file could be opened, and `events` what the loop saw. */
  function I2cMain(items: seq<I2cOptions.Item>, atof: I2cOptions.bytes -> real, initOk: bool, written: int, os: I2cBus.OsRead,
                   fopenOk: bool, events: seq<I2cLoop.Event>): (r: Finish)
    requires os.Delivered? ==> |os.bytes| <= 1
    ensures r.code == 0 || r.code == 1
    ensures I2cOptions.HandleOptions(items, atof).Exit? ==>
      r == Finish(I2cOptions.HandleOptions(items, atof).code, None)
    ensures I2cOptions.HandleOptions(items, atof).Run? ==>
      (r.code == 0 <==>
        Startup.I2cStartup(initOk, written, os).Proceed? && (I2cOptions.HandleOptions(items, atof).save ==> fopenOk))
    ensures r.file.Some? <==>
      I2cOptions.HandleOptions(items, atof).Run? && I2cOptions.HandleOptions(items, atof).save && r.code == 0
    ensures r.file.Some? ==> r.file.value == I2cLoop.SaveFile(events)
  {
    match I2cOptions.HandleOptions(items, atof)
    case Exit(code) => Finish(code, None)
    case Run(save, _, _) =>
      match Startup.I2cStartup(initOk, written, os)
      case Abort(code, _, _) => Finish(code, None)
      case Proceed(_, _) =>
        if !save then Finish(0, None)
        else if !fopenOk then Finish(1, None)
        else Finish(0, Some(I2cLoop.SaveFile(events)))
  }

  /** The I2C program exits with 0 after an "I2C read error", like after
      `q` or an interrupt, and the file it leaves holds the readings taken
      before the failed read. */
  lemma I2cReadErrorExitsZero(items: seq<I2cOptions.Item>, atof: I2cOptions.bytes -> real, os: I2cBus.OsRead,
                              good: seq<I2cLoop.Event>, bad: I2cLoop.Event, rest: seq<I2cLoop.Event>)
    requires I2cOptions.HandleOptions(items, atof).Run? && I2cOptions.HandleOptions(items, atof).save
    requires forall j :: 0 <= j < |good| ==> I2cLoop.Classify(good[j]).Sample?
    requires I2cLoop.Classify(bad) == I2cLoop.Halt(I2cLoop.ReadFailed)
    ensures var r := I2cMain(items, atof, true, 1, I2cBus.Delivered([EXPECTED_DEVID]), true, good + [bad] + rest);
      r.code == 0 && r.file.Some? && |r.file.value.rows| == |good| &&
      forall j :: 0 <= j < |good| ==> r.file.value.rows[j] == I2cLoop.Classify(good[j]).reading
  {
    var events := good + [bad] + rest;
    I2cLoop.PrefixSamples(good, bad, rest);
    I2cLoop.SaveSpec(events);
    forall j | 0 <= j < |good|
      ensures I2cLoop.Samples(events)[j] == I2cLoop.Classify(good[j]).reading
    {
      assert events[j] == good[j];
    }
  }
}
