// Backplane MCU protocol version 1 (mcu/backplane_mcu_driver_v1.cpp): every
// register is read once, the disc types come packed two bits per channel in
// a word, the location LEDs are one mask register, and the flash is written
// through an address register and a data register.
module McuV1 {
  import opened Wrappers
  import opened McuDriver
  import I2c
  import Common

  const OpcGetIdent: Byte := 0x00
  const OpcGetBoardType: Byte := 0x02
  const OpcGetDiscPresence: Byte := 0x20
  const OpcGetDiscFailures: Byte := 0x21
  const OpcDiscLocate: Byte := 0x23
  const OpcGetDiscType: Byte := 0x24
  const OpcGetDiscPresenceChanged: Byte := 0x25
  const OpcHostPower: Byte := 0x60
  const OpcGetMcuFwVersion: Byte := 0xF0
  const OpcFlashAddress: Byte := 0xFA
  const OpcFlashData: Byte := 0xFD
  const OpcFlashErase: Byte := 0xFE
  const OpcReboot: Byte := 0xFF

  /** The answer to OPC_GET_IDENT that identifies this protocol version. */
  const IdentResp: Byte := 0xA8

  const FwVersionSize: Byte := 32
  const BoardTypeSize: Byte := 19

  /** A cached byte register: -1 until it is first read. */
  type Cached = x: int | -1 <= x < 256
  /** A cached word register: -1 until it is first read. */
  type CachedWord = x: int | -1 <= x < 0x1_0000

  /** A block read of an identification string: the trimmed string, or an
    * empty one when the read fails. */
  function IdentString(t: I2c.Transaction): string
  {
    if t.res < 0 then "" else Common.Rtrim(BytesToString(t.rx), Common.DefaultTrimChars)
  }

  /** The address packet of a flash write: the 32-bit offset big-endian, then
    * the chunk length. */
  function FlashAddressPacket(offset: U32, length: Byte): (p: seq<Byte>)
    ensures |p| == 5
  {
    BigEndian(offset, 4) + [length]
  }

  lemma FlashAddressRoundTrip(offset: U32, length: Byte)
    ensures FromBigEndian(FlashAddressPacket(offset, length)[..4]) == offset
    ensures FlashAddressPacket(offset, length)[4] == length
  {
    assert FlashAddressPacket(offset, length)[..4] == BigEndian(offset, 4);
    assert Pow256(4) == 0x1_0000_0000;
    BigEndianRoundTrip(offset, 4);
  }

  /** What writeFlash does on the bus: sets the write address, writes the
    * chunk, reads it back; each failed call fails with the communication
    * error and ends the write, and read-back data that differ from the chunk
    * fail with the flash error. */
  predicate FlashWritten(ts: seq<I2c.Transaction>, offset: U32, data: seq<Byte>, r: Result<()>)
    requires |data| < 256
  {
    && 1 <= |ts| <= 3
    && ts[0].req == I2c.RdWr([I2c.WriteMsg([OpcFlashAddress] + FlashAddressPacket(offset, |data|))])
    && (|ts| >= 2 ==> ts[0].res >= 0 && ts[1].req == I2c.RdWr([I2c.WriteMsg([OpcFlashData] + data)]))
    && (|ts| == 3 ==> ts[1].res >= 0 &&
                      ts[2].req == I2c.RdWr([I2c.WriteMsg([OpcFlashData]), I2c.ReadMsg(|data|)]))
    && (|ts| < 3 ==> ts[|ts| - 1].res < 0 && r == Err(CommFailure))
    && (|ts| == 3 ==>
          r == if ts[2].res < 0 then Err(CommFailure)
               else if ts[2].rx != data then Err(FlashFailure)
               else Ok(()))
  }

  /** What isStateChanged does on the bus: reads presence and failures, and,
    * only when their fingerprint equals the cache, the presence-changed
    * latch. The new fingerprint is stored in the cache as soon as both
    * registers are read, so a failed latch read leaves it updated. */
  predicate StateQueried(ts: seq<I2c.Transaction>, cache: bv32, r: Result<bool>, newCache: bv32)
  {
    && 1 <= |ts| <= 3
    && ts[0].req == I2c.ReadByteData(OpcGetDiscPresence)
    && (ts[0].res < 0 ==> |ts| == 1 && r == Err(CommFailure) && newCache == cache)
    && (ts[0].res >= 0 ==>
          |ts| >= 2 && ts[1].req == I2c.ReadByteData(OpcGetDiscFailures) &&
          (ts[1].res < 0 ==> |ts| == 2 && r == Err(CommFailure) && newCache == cache))
    && (|ts| >= 2 && ts[0].res >= 0 && ts[1].res >= 0 ==>
          0 <= ts[0].res < 256 && 0 <= ts[1].res < 256 &&
          newCache == Fingerprint(ts[0].res, ts[1].res) &&
          (newCache != cache ==> |ts| == 2 && r == Ok(true)) &&
          (newCache == cache ==>
             |ts| == 3 && ts[2].req == I2c.ReadByteData(OpcGetDiscPresenceChanged) &&
             r == if ts[2].res < 0 then Err(CommFailure) else Ok(ts[2].res > 0)))
  }

  class ProtoV1 {
    const dev: I2c.I2cDev
    var dPresence: Cached
    var dFailures: Cached
    var dTypes: CachedWord
    /** Where the next chunk goes in the MCU flash. */
    var flashOffset: U32

    constructor (dev: I2c.I2cDev)
      ensures this.dev == dev && dPresence == -1 && dFailures == -1 && dTypes == -1 && flashOffset == 0
    {
      this.dev := dev;
      dPresence := -1;
      dFailures := -1;
      dTypes := -1;
      flashOffset := 0;
    }

    /** The 32-byte firmware version block, trimmed. */
    method GetFwVersion() returns (version: string)
      modifies dev
      ensures OneCall(old(dev.history), dev.history, I2c.ReadBlockData(OpcGetMcuFwVersion, FwVersionSize))
      ensures version == IdentString(dev.history[|dev.history| - 1])
    {
      var res, buf := ReadBlockData(dev, OpcGetMcuFwVersion, FwVersionSize);
      version := if res < 0 then "" else Common.Rtrim(BytesToString(buf), Common.DefaultTrimChars);
    }

    /** The 19-byte board type block, trimmed. */
    method GetBoardType() returns (boardType: string)
      modifies dev
      ensures OneCall(old(dev.history), dev.history, I2c.ReadBlockData(OpcGetBoardType, BoardTypeSize))
      ensures boardType == IdentString(dev.history[|dev.history| - 1])
    {
      var res, buf := ReadBlockData(dev, OpcGetBoardType, BoardTypeSize);
      boardType := if res < 0 then "" else Common.Rtrim(BytesToString(buf), Common.DefaultTrimChars);
    }

    /** getDrivesPresence: one read; a failure leaves the cache as it was. */
    method GetDrivesPresence() returns (r: Result<()>)
      modifies this`dPresence, dev
      ensures OneCall(old(dev.history), dev.history, I2c.ReadByteData(OpcGetDiscPresence))
      ensures var res := dev.history[|dev.history| - 1].res;
        && (res < 0 ==> r == Err(CommFailure) && dPresence == old(dPresence))
        && (res >= 0 ==> r == Ok(()) && dPresence == res)
    {
      var res := ReadByteData(dev, OpcGetDiscPresence);
      if res < 0 {
        return Err(CommFailure);
      }
      dPresence := res;
      r := Ok(());
    }

    method GetDrivesFailures() returns (r: Result<()>)
      modifies this`dFailures, dev
      ensures OneCall(old(dev.history), dev.history, I2c.ReadByteData(OpcGetDiscFailures))
      ensures var res := dev.history[|dev.history| - 1].res;
        && (res < 0 ==> r == Err(CommFailure) && dFailures == old(dFailures))
        && (res >= 0 ==> r == Ok(()) && dFailures == res)
    {
      var res := ReadByteData(dev, OpcGetDiscFailures);
      if res < 0 {
        return Err(CommFailure);
      }
      dFailures := res;
      r := Ok(());
    }

    method GetDrivesType() returns (r: Result<()>)
      modifies this`dTypes, dev
      ensures OneCall(old(dev.history), dev.history, I2c.ReadWordData(OpcGetDiscType))
      ensures var res := dev.history[|dev.history| - 1].res;
        && (res < 0 ==> r == Err(CommFailure) && dTypes == old(dTypes))
        && (res >= 0 ==> r == Ok(()) && dTypes == res)
    {
      var res := ReadWordData(dev, OpcGetDiscType);
      if res < 0 {
        return Err(CommFailure);
      }
      dTypes := res;
      r := Ok(());
    }

    /** getDrivesLocate: the location LED mask. */
    method GetDrivesLocate() returns (r: Result<Byte>)
      modifies dev
      ensures OneCall(old(dev.history), dev.history, I2c.ReadByteData(OpcDiscLocate))
      ensures var res := dev.history[|dev.history| - 1].res;
        r == if res < 0 then Err(CommFailure) else Ok(res)
    {
      var res := ReadByteData(dev, OpcDiscLocate);
      r := if res < 0 then Err(CommFailure) else Ok(res);
    }

    /** drivePresent: reads the presence register only while nothing is
      * cached, then tests the channel's bit. */
    method DrivePresent(ch: nat) returns (r: Result<bool>)
      requires ch < MaxChannels
      modifies this`dPresence, dev
      ensures old(dPresence) >= 0 ==> dev.history == old(dev.history) && dPresence == old(dPresence)
      ensures old(dPresence) < 0 ==> OneCall(old(dev.history), dev.history, I2c.ReadByteData(OpcGetDiscPresence))
      ensures r.Err? ==> old(dPresence) < 0 && r.msg == CommFailure && dPresence == old(dPresence)
      ensures r.Ok? ==> dPresence >= 0 && r.value == Bit(dPresence, ch)
      ensures r.Ok? && old(dPresence) < 0 ==> dPresence == dev.history[|dev.history| - 1].res
    {
      if dPresence < 0 {
        var g := GetDrivesPresence();
        if g.Err? {
          return Err(g.msg);
        }
      }
      r := Ok(Bit(dPresence, ch));
    }

    method DriveFailured(ch: nat) returns (r: Result<bool>)
      requires ch < MaxChannels
      modifies this`dFailures, dev
      ensures old(dFailures) >= 0 ==> dev.history == old(dev.history) && dFailures == old(dFailures)
      ensures old(dFailures) < 0 ==> OneCall(old(dev.history), dev.history, I2c.ReadByteData(OpcGetDiscFailures))
      ensures r.Err? ==> old(dFailures) < 0 && r.msg == CommFailure && dFailures == old(dFailures)
      ensures r.Ok? ==> dFailures >= 0 && r.value == Bit(dFailures, ch)
      ensures r.Ok? && old(dFailures) < 0 ==> dFailures == dev.history[|dev.history| - 1].res
    {
      if dFailures < 0 {
        var g := GetDrivesFailures();
        if g.Err? {
          return Err(g.msg);
        }
      }
      r := Ok(Bit(dFailures, ch));
    }

    /** driveType: the channel's two-bit field of the cached type word. */
    method DriveType(ch: nat) returns (r: Result<DriveType>)
      requires ch < MaxChannels
      modifies this`dTypes, dev
      ensures old(dTypes) >= 0 ==> dev.history == old(dev.history) && dTypes == old(dTypes)
      ensures old(dTypes) < 0 ==> OneCall(old(dev.history), dev.history, I2c.ReadWordData(OpcGetDiscType))
      ensures r.Err? ==> old(dTypes) < 0 && r.msg == CommFailure && dTypes == old(dTypes)
      ensures r.Ok? ==> dTypes >= 0 && r.value == DecodeDiscType(TypeField(dTypes, ch))
      ensures r.Ok? && old(dTypes) < 0 ==> dTypes == dev.history[|dev.history| - 1].res
    {
      if dTypes < 0 {
        var g := GetDrivesType();
        if g.Err? {
          return Err(g.msg);
        }
      }
      r := Ok(DecodeDiscType(TypeField(dTypes, ch)));
    }

    /** Read-modify-write of the LED mask; nothing is written when the LED is
      * already in the requested state. */
    method SetDriveLocationLED(ch: nat, on: bool) returns (r: Result<()>)
      requires ch < MaxChannels
      modifies dev
      ensures Extends(old(dev.history), dev.history)
      ensures var ts := dev.history[|old(dev.history)|..];
        && 1 <= |ts| <= 2
        && ts[0].req == I2c.ReadByteData(OpcDiscLocate)
        && (ts[0].res < 0 ==> |ts| == 1 && r == Err(CommFailure))
        && (0 <= ts[0].res < 256 && Bit(ts[0].res, ch) == on ==> |ts| == 1 && r == Ok(()))
        && (0 <= ts[0].res < 256 && Bit(ts[0].res, ch) != on ==>
              |ts| == 2 && ts[1].req == I2c.WriteByteData(OpcDiscLocate, SwitchLed(ts[0].res, ch, on)) &&
              r == if ts[1].res < 0 then Err(CommFailure) else Ok(()))
    {
      ghost var h0 := dev.history;
      var cur := GetDrivesLocate();
      ghost var t := dev.history[|h0|];
      if cur.Err? {
        assert dev.history[|h0|..] == [t];
        return Err(cur.msg);
      }
      var leds := SwitchLed(cur.value, ch, on);
      SetBitUnchanged(cur.value, ch, on);
      if leds == cur.value {
        assert dev.history[|h0|..] == [t];
        return Ok(());
      }
      var res := WriteByteData(dev, OpcDiscLocate, leds);
      assert dev.history[|h0|..] == [t, dev.history[|h0| + 1]];
      r := if res < 0 then Err(CommFailure) else Ok(());
    }

    method GetDriveLocationLED(ch: nat) returns (r: Result<bool>)
      requires ch < MaxChannels
      modifies dev
      ensures OneCall(old(dev.history), dev.history, I2c.ReadByteData(OpcDiscLocate))
      ensures var res := dev.history[|dev.history| - 1].res;
        r == if res < 0 then Err(CommFailure) else Ok(Bit(res, ch))
    {
      var leds := GetDrivesLocate();
      if leds.Err? {
        return Err(leds.msg);
      }
      r := Ok(Bit(leds.value, ch));
    }

    /** Clears the whole LED mask with one write. */
    method ResetDriveLocationLEDs() returns (r: Result<()>)
      modifies dev
      ensures OneCall(old(dev.history), dev.history, I2c.WriteByteData(OpcDiscLocate, 0))
      ensures r == if dev.history[|dev.history| - 1].res < 0 then Err(CommFailure) else Ok(())
    {
      var res := WriteByteData(dev, OpcDiscLocate, 0);
      r := if res < 0 then Err(CommFailure) else Ok(());
    }

    method SetHostPowerState(powered: bool) returns (r: Result<()>)
      modifies dev
      ensures OneCall(old(dev.history), dev.history, I2c.WriteByteData(OpcHostPower, if powered then 1 else 0))
      ensures r == if dev.history[|dev.history| - 1].res < 0 then Err(CommFailure) else Ok(())
    {
      var res := WriteByteData(dev, OpcHostPower, if powered then 1 else 0);
      r := if res < 0 then Err(CommFailure) else Ok(());
    }

    /** isStateChanged: a changed fingerprint is reported at once; an
      * unchanged one defers to the presence-changed latch. */
    method IsStateChanged(cache: bv32) returns (r: Result<bool>, newCache: bv32)
      modifies this`dPresence, this`dFailures, dev
      ensures Extends(old(dev.history), dev.history)
      ensures StateQueried(dev.history[|old(dev.history)|..], cache, r, newCache)
      ensures r.Ok? ==> dPresence >= 0 && dFailures >= 0 && newCache == Fingerprint(dPresence, dFailures)
      ensures var ts := dev.history[|old(dev.history)|..];
        && (ts[0].res < 0 ==> dPresence == old(dPresence) && dFailures == old(dFailures))
        && (ts[0].res >= 0 ==> dPresence == ts[0].res)
        && (ts[0].res >= 0 && ts[1].res < 0 ==> dFailures == old(dFailures))
        && (ts[0].res >= 0 && ts[1].res >= 0 ==> dFailures == ts[1].res)
    {
      ghost var h0 := dev.history;
      var g := GetDrivesPresence();
      ghost var t0 := dev.history[|h0|];
      if g.Err? {
        assert dev.history[|h0|..] == [t0];
        return Err(g.msg), cache;
      }
      g := GetDrivesFailures();
      ghost var t1 := dev.history[|h0| + 1];
      if g.Err? {
        assert dev.history[|h0|..] == [t0, t1];
        return Err(g.msg), cache;
      }
      newCache := Fingerprint(dPresence, dFailures);
      if newCache != cache {
        assert dev.history[|h0|..] == [t0, t1];
        return Ok(true), newCache;
      }
      var res := ReadByteData(dev, OpcGetDiscPresenceChanged);
      assert dev.history[|h0|..] == [t0, t1, dev.history[|h0| + 2]];
      if res < 0 {
        return Err(CommFailure), newCache;
      }
      r := Ok(res > 0);
    }

    /** ping: the identification register answers. */
    method Ping() returns (alive: bool)
      modifies dev
      ensures OneCall(old(dev.history), dev.history, I2c.ReadByteData(OpcGetIdent))
      ensures alive == (dev.history[|dev.history| - 1].res >= 0)
    {
      var res := ReadByteData(dev, OpcGetIdent);
      alive := res >= 0;
    }

    method Reboot() returns (r: Result<()>)
      modifies dev
      ensures OneCall(old(dev.history), dev.history, I2c.WriteByte(OpcReboot))
      ensures r == if dev.history[|dev.history| - 1].res < 0 then Err(CommFailure) else Ok(())
    {
      var res := WriteByte(dev, OpcReboot);
      r := if res < 0 then Err(CommFailure) else Ok(());
    }

    /** Erases the flash and starts writing again at offset zero. */
    method EraseFlash() returns (r: Result<()>)
      modifies this`flashOffset, dev
      ensures OneCall(old(dev.history), dev.history, I2c.WriteByte(OpcFlashErase))
      ensures r == if dev.history[|dev.history| - 1].res < 0 then Err(CommFailure) else Ok(())
      ensures flashOffset == if r.Ok? then 0 else old(flashOffset)
    {
      var res := WriteByte(dev, OpcFlashErase);
      if res < 0 {
        return Err(CommFailure);
      }
      flashOffset := 0;
      r := Ok(());
    }

    /** writeFlash: address, data, read-back and compare; a successful write
      * advances the 32-bit offset by the chunk's length. */
    method WriteFlash(data: seq<Byte>) returns (r: Result<()>)
      requires |data| < 256
      modifies this`flashOffset, dev
      ensures Extends(old(dev.history), dev.history)
      ensures FlashWritten(dev.history[|old(dev.history)|..], old(flashOffset), data, r)
      ensures flashOffset == if r.Ok? then (old(flashOffset) + |data|) % 0x1_0000_0000 else old(flashOffset)
    {
      ghost var h0 := dev.history;
      var packet := FlashAddressPacket(flashOffset, |data|);
      assert packet[..5] == packet;
      var res := WriteBlobCmd(dev, OpcFlashAddress, 5, packet);
      ghost var t0 := dev.history[|h0|];
      if res < 0 {
        assert dev.history[|h0|..] == [t0];
        return Err(CommFailure);
      }
      assert data[..|data|] == data;
      res := WriteBlobCmd(dev, OpcFlashData, |data|, data);
      ghost var t1 := dev.history[|h0| + 1];
      if res < 0 {
        assert dev.history[|h0|..] == [t0, t1];
        return Err(CommFailure);
      }
      var buf;
      res, buf := ReadBlobCmd(dev, OpcFlashData, |data|);
      assert dev.history[|h0|..] == [t0, t1, dev.history[|h0| + 2]];
      if res < 0 {
        return Err(CommFailure);
      }
      if buf != data {
        return Err(FlashFailure);
      }
      flashOffset := (flashOffset + |data|) % 0x1_0000_0000;
      r := Ok(());
    }
  }
}
