// The storage service's copy of the protocol version 1 driver
// (storage/backplane_mcu_driver_v1.cpp). Its drive, LED and power operations
// are those of the MCU copy, which this class reaches through `core`; it has
// no flash, ping, reboot or board type, reads a 22-byte firmware version
// block, always reads the swap latch in ifStateChanged, and compares the
// fingerprint the other way round.
module StorageV1 {
  import opened Wrappers
  import opened McuDriver
  import I2c
  import Common
  import McuV1

  const FwVersionSize: Byte := 22
  const OpcGetDiscSwap: Byte := 0x25

  /** ifStateChanged's verdict as written: `ret = newState == cache`, then
    * raised by a non-zero swap latch. */
  function StateVerdictAsWritten(newState: bv32, cache: bv32, swap: int): bool
  {
    newState == cache || swap > 0
  }

  /** The verdict the MCU copy computes and the controller's refresh-skip
    * rule expects: a fingerprint that differs from the cache, or a raised
    * latch. */
  function StateVerdict(newState: bv32, cache: bv32, swap: int): bool
  {
    newState != cache || swap > 0
  }

  /** As written, a changed fingerprint with a clear latch reads as "no
    * change", and an unchanged one reads as "changed". */
  lemma StateVerdictAsWrittenInverted()
    ensures !StateVerdictAsWritten(1, 0, 0) && StateVerdict(1, 0, 0)
    ensures StateVerdictAsWritten(0, 0, 0) && !StateVerdict(0, 0, 0)
  {
  }

  /** The two verdicts agree only when the latch is raised. */
  lemma StateVerdictAsWrittenAgrees(newState: bv32, cache: bv32, swap: int)
    ensures StateVerdictAsWritten(newState, cache, swap) == StateVerdict(newState, cache, swap) <==> swap > 0
  {
  }

  /** StateVerdict is the one the MCU copy's isStateChanged reaches:
    * whenever the presence and failure reads succeed and, for an unchanged
    * fingerprint, the latch read does too, the MCU copy answers
    * StateVerdict (a latch it does not read counts as clear). */
  lemma McuCopyAgrees(ts: seq<I2c.Transaction>, cache: bv32, r: Result<bool>, newCache: bv32)
    requires McuV1.StateQueried(ts, cache, r, newCache)
    requires r.Ok?
    ensures |ts| >= 2 && 0 <= ts[0].res < 256 && 0 <= ts[1].res < 256
    ensures newCache == Fingerprint(ts[0].res, ts[1].res)
    ensures r.value == StateVerdict(newCache, cache, if |ts| == 3 then ts[2].res else 0)
  {
  }

  /** What ifStateChanged does on the bus: presence, failures and always the
    * swap latch; the cache takes the new fingerprint once both registers are
    * read, even when the latch read then fails. */
  predicate StateQueried(ts: seq<I2c.Transaction>, cache: bv32, r: Result<bool>, newCache: bv32)
  {
    && 1 <= |ts| <= 3
    && ts[0].req == I2c.ReadByteData(McuV1.OpcGetDiscPresence)
    && (ts[0].res < 0 ==> |ts| == 1 && r == Err(CommFailure) && newCache == cache)
    && (ts[0].res >= 0 ==>
          |ts| >= 2 && ts[1].req == I2c.ReadByteData(McuV1.OpcGetDiscFailures) &&
          (ts[1].res < 0 ==> |ts| == 2 && r == Err(CommFailure) && newCache == cache))
    && (|ts| >= 2 && ts[0].res >= 0 && ts[1].res >= 0 ==>
          0 <= ts[0].res < 256 && 0 <= ts[1].res < 256 &&
          newCache == Fingerprint(ts[0].res, ts[1].res) &&
          |ts| == 3 && ts[2].req == I2c.ReadByteData(OpcGetDiscSwap) &&
          r == if ts[2].res < 0 then Err(CommFailure) else Ok(StateVerdictAsWritten(newCache, cache, ts[2].res)))
  }

  class ProtoV1 {
    /** The operations shared with the MCU copy, on the same device. */
    const core: McuV1.ProtoV1

    constructor (dev: I2c.I2cDev)
      ensures fresh(core) && core.dev == dev
      ensures core.dPresence == -1 && core.dFailures == -1 && core.dTypes == -1
    {
      core := new McuV1.ProtoV1(dev);
    }

    /** The 22-byte firmware version block, trimmed; empty when the read
      * fails. */
    method GetFwVersion() returns (version: string)
      modifies core.dev
      ensures OneCall(old(core.dev.history), core.dev.history, I2c.ReadBlockData(McuV1.OpcGetMcuFwVersion, FwVersionSize))
      ensures version == McuV1.IdentString(core.dev.history[|core.dev.history| - 1])
    {
      var res, buf := ReadBlockData(core.dev, McuV1.OpcGetMcuFwVersion, FwVersionSize);
      version := if res < 0 then "" else Common.Rtrim(BytesToString(buf), Common.DefaultTrimChars);
    }

    /** ifStateChanged, with its inverted comparison. */
    method IfStateChanged(cache: bv32) returns (r: Result<bool>, newCache: bv32)
      modifies core`dPresence, core`dFailures, core.dev
      ensures Extends(old(core.dev.history), core.dev.history)
      ensures StateQueried(core.dev.history[|old(core.dev.history)|..], cache, r, newCache)
      ensures r.Ok? ==> core.dPresence >= 0 && core.dFailures >= 0 && newCache == Fingerprint(core.dPresence, core.dFailures)
      ensures var ts := core.dev.history[|old(core.dev.history)|..];
        && (ts[0].res < 0 ==> core.dPresence == old(core.dPresence) && core.dFailures == old(core.dFailures))
        && (ts[0].res >= 0 ==> core.dPresence == ts[0].res)
        && (ts[0].res >= 0 && ts[1].res < 0 ==> core.dFailures == old(core.dFailures))
        && (ts[0].res >= 0 && ts[1].res >= 0 ==> core.dFailures == ts[1].res)
    {
      var dev := core.dev;
      ghost var h0 := dev.history;
      var g := core.GetDrivesPresence();
      ghost var t0 := dev.history[|h0|];
      if g.Err? {
        assert dev.history[|h0|..] == [t0];
        return Err(g.msg), cache;
      }
      g := core.GetDrivesFailures();
      ghost var t1 := dev.history[|h0| + 1];
      if g.Err? {
        assert dev.history[|h0|..] == [t0, t1];
        return Err(g.msg), cache;
      }
      newCache := Fingerprint(core.dPresence, core.dFailures);
      var res := ReadByteData(dev, OpcGetDiscSwap);
      assert dev.history[|h0|..] == [t0, t1, dev.history[|h0| + 2]];
      if res < 0 {
        return Err(CommFailure), newCache;
      }
      r := Ok(StateVerdictAsWritten(newCache, cache, res));
    }
  }
}
