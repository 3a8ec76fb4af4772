/**
 Start-up of both programs, between option handling and acquisition: bring
 up the bus, check the device identity byte against 0xE5, and send the
 configuration writes. The results of the configuration writes are not
 checked by either program. The bus's answers are inputs.
 */
module Startup {
  import opened Base
  import opened Adxl345
  import SpiCommand
  import I2cBus

  /** Either go on after sending `frames`, or return `code`; `cleanup` says
      whether the device handle is closed on the way out. `probe` holds the
      identity transfer sent to the device, if start-up got that far. */
  datatype Startup<F> = Proceed(probe: seq<F>, frames: seq<F>) | Abort(code: int, cleanup: bool, probe: seq<F>)

  /** SPI: `gpioInitialise()` returned `gpioInit`; the two-byte identity
      transfer returned `xferCount` and left `rx` in the buffer. */
  function SpiStartup(gpioInit: int, xferCount: int, rx: seq<bv8>): (r: Startup<seq<bv8>>)
    requires |rx| == 2
    ensures r.Proceed? <==> gpioInit >= 0 && xferCount == 2 && rx[1] == EXPECTED_DEVID as bv8
    ensures r.Abort? ==> r.code == 1
    ensures r.Abort? ==> (r.cleanup <==> gpioInit >= 0)
    ensures |r.probe| == 1 <==> gpioInit >= 0
    ensures |r.probe| == 1 ==>
      r.probe[0] == SpiCommand.IdFrame && |r.probe[0]| == |rx| &&
      SpiCommand.Interpret(r.probe[0][0]) == SpiCommand.Header(true, false, DEVID as bv8)
    ensures r.Proceed? ==> |r.frames| == |ConfigWrites|
    ensures r.Proceed? ==> forall k :: 0 <= k < |r.frames| ==>
      |r.frames[k]| == 2 &&
      SpiCommand.Interpret(r.frames[k][0]).register == ConfigWrites[k].0 as bv8 &&
      !SpiCommand.Interpret(r.frames[k][0]).read &&
      r.frames[k][1] == ConfigWrites[k].1 as bv8
  {
    if gpioInit < 0 then Abort(1, false, [])
    else
      SpiCommand.IdFrameIsSingleRegisterRead();
      var probe := [SpiCommand.IdFrame];
      if xferCount != 2 then Abort(1, true, probe)
      else if rx[1] != EXPECTED_DEVID as bv8 then Abort(1, true, probe)
      else
        SpiCommand.ConfigFramesWriteConfiguration();
        Proceed(probe, SpiCommand.ConfigFrames())
  }

  /** I2C: `adxl_init()` succeeded or not (on failure it has already closed
      what it opened); the identity read's write of the register address
      DEVID returned `written` and its read did `os`. */
  function I2cStartup(initOk: bool, written: int, os: I2cBus.OsRead): (r: Startup<seq<byte>>)
    requires os.Delivered? ==> |os.bytes| <= 1
    ensures r.Proceed? <==> initOk && written == 1 && os == I2cBus.Delivered([EXPECTED_DEVID])
    ensures r.Abort? ==> r.code == 1
    ensures r.Abort? ==> (r.cleanup <==> initOk)
    ensures |r.probe| == 1 <==> initOk
    ensures |r.probe| == 1 ==> r.probe[0] == [DEVID]
    ensures r.Proceed? ==> |r.frames| == |ConfigWrites|
    ensures r.Proceed? ==> forall k :: 0 <= k < |r.frames| ==>
      r.frames[k] == [ConfigWrites[k].0, ConfigWrites[k].1]
  {
    if !initOk then Abort(1, false, [])
    else if !I2cBus.IdCheckPasses(written, os) then Abort(1, true, [[DEVID]])
    else Proceed([[DEVID]], I2cBus.ConfigFrames())
  }

  /** Both programs configure the same registers with the same values in
      the same order; only the SPI framing adds flag bits. */
  lemma SameConfiguration(gpioInit: int, xferCount: int, rx: seq<bv8>, initOk: bool, written: int, os: I2cBus.OsRead)
    requires |rx| == 2
    requires os.Delivered? ==> |os.bytes| <= 1
    requires SpiStartup(gpioInit, xferCount, rx).Proceed?
    requires I2cStartup(initOk, written, os).Proceed?
    ensures forall k :: 0 <= k < |ConfigWrites| ==>
      SpiCommand.Interpret(SpiStartup(gpioInit, xferCount, rx).frames[k][0]).register as int
        == I2cStartup(initOk, written, os).frames[k][0] &&
      SpiStartup(gpioInit, xferCount, rx).frames[k][1] as int
        == I2cStartup(initOk, written, os).frames[k][1]
  {
  }
}
