// Backplane MCU protocol version 0 (mcu/backplane_mcu_driver_v0.cpp). The
// firmware of this version often answers with corrupted data, so the status
// registers and the identification strings are read until the same answer
// comes twice in a row (at most five times).
module McuV0 {
  import opened Wrappers
  import opened McuDriver
  import I2c
  import Common

  const OpcGetIdent: Byte := 0x00
  const OpcGetVersion: Byte := 0x01
  const OpcFlashErase: Byte := 0x3F
  const OpcFlashWrite: Byte := 0x40
  const OpcReboot: Byte := 0x41
  const OpcGetDiscPresence: Byte := 0x42
  const OpcGetDiscFailures: Byte := 0x43
  const OpcDiscLocateStart: Byte := 0x45
  const OpcDiscLocateStop: Byte := 0x46
  const OpcGetDiscType: Byte := 0x47
  const OpcGetBoardType: Byte := 0x48
  const OpcHostPowerOn: Byte := 0x68
  const OpcHostPowerOff: Byte := 0x69
  const OpcFlashRead: Byte := 0x80

  /** The answer to OPC_GET_IDENT that identifies this protocol version. */
  const IdentResp: Byte := 0xBC

  const RetryCount: nat := 5
  const VersionSize: Byte := 60
  const BoardTypeSize: Byte := 32
  /** Opcode, 32-bit offset and 16-bit length of a flash packet. */
  const HeaderSize: nat := 7

  /** A cached status register: -1 until it is first read. */
  type Cached = x: int | -1 <= x < 256

  const VersionRequest: I2c.Request := I2c.RdWr([I2c.WriteMsg([OpcGetVersion]), I2c.ReadMsg(VersionSize)])
  const BoardTypeRequest: I2c.Request := I2c.ReadBlockData(OpcGetBoardType, BoardTypeSize)

  /** The transactions of driveType's rounds: each round writes the channel
    * to the disc type register and then reads a byte; a round fails when
    * either call fails, and a failed write is not followed by a read. */
  predicate TypeRounds(ts: seq<I2c.Transaction>, ch: Byte, ps: seq<Probe<int>>)
    decreases |ps|
  {
    if ps == [] then ts == []
    else
      && |ts| >= 1 && ts[0].req == I2c.WriteByteData(OpcGetDiscType, ch)
      && if ts[0].res < 0 then ps == [Failed] && |ts| == 1
         else
           && |ts| >= 2 && ts[1].req == I2c.ReadByte && ps[0] == ProbeOf(ts[1].res)
           && (ts[1].res < 0 ==> |ps| == 1 && |ts| == 2)
           && TypeRounds(ts[2..], ch, ps[1..])
  }

  /** A round that got an answer extends the rounds before it. */
  lemma {:induction false} TypeRoundsAppend(ts: seq<I2c.Transaction>, ch: Byte, ps: seq<Probe<int>>,
                                            round: seq<I2c.Transaction>, p: Probe<int>)
    requires TypeRounds(ts, ch, ps) && AllGot(ps, |ps|)
    requires TypeRounds(round, ch, [p])
    ensures TypeRounds(ts + round, ch, ps + [p])
    decreases |ps|
  {
    if ps == [] {
      assert ts + round == round;
    } else {
      assert ps[0].Got?;
      assert (ts + round)[2..] == ts[2..] + round;
      assert (ps + [p])[1..] == ps[1..] + [p];
      TypeRoundsAppend(ts[2..], ch, ps[1..], round, p);
    }
  }

  /** A round whose register write failed. */
  lemma FailedRound(w: I2c.Transaction, ch: Byte)
    requires w.req == I2c.WriteByteData(OpcGetDiscType, ch) && w.res < 0
    ensures TypeRounds([w], ch, [Failed])
  {
  }

  /** A round whose register write went through, and its byte read. */
  lemma ReadRound(w: I2c.Transaction, rd: I2c.Transaction, ch: Byte)
    requires w.req == I2c.WriteByteData(OpcGetDiscType, ch) && w.res >= 0 && rd.req == I2c.ReadByte
    ensures TypeRounds([w, rd], ch, [ProbeOf(rd.res)])
  {
    assert [w, rd][2..] == [];
    assert TypeRounds([], ch, []);
  }

  /** The packet header of a flash write or read-back. */
  function FlashHeader(opcode: Byte, offset: U32, length: Byte): (h: seq<Byte>)
    ensures |h| == HeaderSize
  {
    [opcode] + BigEndian(offset, 4) + BigEndian(length, 2)
  }

  /** The header carries the offset and the length, big-endian, after the
    * opcode; the data follows it. */
  lemma FlashHeaderRoundTrip(opcode: Byte, offset: U32, data: seq<Byte>)
    requires |data| < 256
    ensures var frame := FlashHeader(opcode, offset, |data|) + data;
      frame[0] == opcode &&
      FromBigEndian(frame[1..5]) == offset &&
      FromBigEndian(frame[5..7]) == |data| &&
      frame[7..] == data
  {
    var frame := FlashHeader(opcode, offset, |data|) + data;
    assert frame[1..5] == BigEndian(offset, 4);
    assert frame[5..7] == BigEndian(|data|, 2);
    assert Pow256(4) == 0x1_0000_0000 && Pow256(2) == 0x1_0000;
    BigEndianRoundTrip(offset, 4);
    BigEndianRoundTrip(|data|, 2);
  }

  /** The uint8 length writeFlash hands to write_i2c_blob: header and data,
    * wrapped to eight bits. */
  function FrameLength(length: Byte): Byte
  {
    (length + HeaderSize) % 256
  }

  /** A chunk of at most 248 bytes goes on the bus whole; a longer one is cut
    * to the low eight bits of its frame length. */
  lemma FrameLengthWraps(length: Byte)
    ensures length + HeaderSize < 256 ==> FrameLength(length) == length + HeaderSize
    ensures length + HeaderSize >= 256 ==> FrameLength(length) == length + HeaderSize - 256 < HeaderSize
  {
  }

  /** The read-back loop of writeFlash: up to five read-backs of the packet
    * just written, stopping at the first that succeeds and returns the data;
    * `ok` is whether the last read-back succeeded, whatever it returned. */
  predicate VerifyRun(ts: seq<I2c.Transaction>, req: I2c.Request, data: seq<Byte>, ok: bool)
  {
    && 1 <= |ts| <= RetryCount
    && AllRequests(ts, req)
    && (forall j :: 0 <= j < |ts| - 1 ==> ts[j].res < 0 || ts[j].rx != data)
    && ((ts[|ts| - 1].res >= 0 && ts[|ts| - 1].rx == data) || |ts| == RetryCount)
    && ok == (ts[|ts| - 1].res >= 0)
  }

  /** A read-back that succeeds with wrong data five times does not fail the
    * write: only a transport error of the last read-back does. */
  lemma MismatchIsNotFatal(req: I2c.Request, data: seq<Byte>, wrong: seq<Byte>)
    requires wrong != data
    ensures var t := I2c.Transaction(req, 0, wrong);
      VerifyRun([t, t, t, t, t], req, data, true)
  {
  }

  /** The packet writeFlash sends: the header for `offset` and the chunk,
    * cut to the 8-bit frame length. */
  function FlashWriteRequest(offset: U32, data: seq<Byte>): I2c.Request
    requires |data| < 256
  {
    I2c.RdWr([I2c.WriteMsg((FlashHeader(OpcFlashWrite, offset, |data|) + data)[..FrameLength(|data|)])])
  }

  /** The read-back of the chunk at `offset`. */
  function FlashReadRequest(offset: U32, data: seq<Byte>): I2c.Request
    requires |data| < 256
  {
    I2c.RdWr([I2c.WriteMsg(FlashHeader(OpcFlashRead, offset, |data|)), I2c.ReadMsg(|data|)])
  }

  /** What writeFlash does on the bus: the packet, then, unless it failed, the
    * read-back loop; a failed packet fails with the communication error, a
    * failed last read-back with the flash error. */
  predicate FlashWritten(ts: seq<I2c.Transaction>, offset: U32, data: seq<Byte>, r: Result<()>)
    requires |data| < 256
  {
    && |ts| >= 1
    && ts[0].req == FlashWriteRequest(offset, data)
    && (ts[0].res < 0 ==> |ts| == 1 && r == Err(CommFailure))
    && (ts[0].res >= 0 ==> VerifyRun(ts[1..], FlashReadRequest(offset, data), data, r.Ok?))
    && (r.Err? && ts[0].res >= 0 ==> r.msg == FlashFailure)
  }

  /** A packet that failed is all writeFlash did. */
  lemma FlashWrittenOnce(h0: seq<I2c.Transaction>, h1: seq<I2c.Transaction>, offset: U32, data: seq<Byte>)
    requires |data| < 256
    requires |h1| == |h0| + 1 && h1[..|h0|] == h0
    requires h1[|h0|].req == FlashWriteRequest(offset, data) && h1[|h0|].res < 0
    ensures Extends(h0, h1) && FlashWritten(h1[|h0|..], offset, data, Err(CommFailure))
  {
    assert h1[|h0|..] == [h1[|h0|]];
  }

  /** A packet that went through, followed by the read-back loop. */
  lemma FlashWrittenBack(h0: seq<I2c.Transaction>, h1: seq<I2c.Transaction>, h2: seq<I2c.Transaction>,
                         rs: seq<I2c.Transaction>, offset: U32, data: seq<Byte>, r: Result<()>)
    requires |data| < 256
    requires |h1| == |h0| + 1 && h1[..|h0|] == h0 && h2 == h1 + rs
    requires h1[|h0|].req == FlashWriteRequest(offset, data) && h1[|h0|].res >= 0
    requires VerifyRun(rs, FlashReadRequest(offset, data), data, r.Ok?)
    requires r.Err? ==> r.msg == FlashFailure
    ensures Extends(h0, h2) && FlashWritten(h2[|h0|..], offset, data, r)
  {
    var ts := h2[|h0|..];
    assert ts == [h1[|h0|]] + rs;
    assert ts[1..] == rs;
    assert h2[..|h0|] == h1[..|h0|];
  }

  class ProtoV0 {
    const dev: I2c.I2cDev
    var dPresence: Cached
    var dFailures: Cached
    /** Where the next chunk goes in the MCU flash. */
    var flashOffset: U32

    constructor (dev: I2c.I2cDev)
      ensures this.dev == dev && dPresence == -1 && dFailures == -1 && flashOffset == 0
    {
      this.dev := dev;
      dPresence := -1;
      dFailures := -1;
      flashOffset := 0;
    }

    /** The "same answer twice" loop over a status register: returns whether
      * it ended on a failed read, and the last value it got. */
    method ReadSettled(opcode: Byte, init: Cached) returns (failed: bool, value: Cached)
      modifies dev
      ensures SettledReads(old(dev.history), dev.history, I2c.ReadByteData(opcode),
                           RetryCount, init, value, failed)
      ensures !failed ==> value >= 0
    {
      ghost var h0 := dev.history;
      ghost var ts: seq<I2c.Transaction> := [];
      ghost var ps: seq<Probe<int>> := [];
      value, failed := init, false;
      var retry, stop := 0, false;
      while retry < RetryCount && !stop
        invariant |ts| == retry && dev.history == h0 + ts
        invariant AllRequests(ts, I2c.ReadByteData(opcode)) && ps == ResultProbes(ts)
        invariant SettleLoop(init, ps, RetryCount, value, stop, failed)
        invariant retry > 0 && !failed ==> value >= 0
      {
        var res := ReadByteData(dev, opcode);
        ghost var t := dev.history[|dev.history| - 1];
        ResultProbesAppend(ts, t);
        SettleLoopStep(init, ps, RetryCount, value, ProbeOf(res));
        failed, stop := res < 0, res < 0 || res == value;
        if res >= 0 {
          value := res;
        }
        ts, ps := ts + [t], ps + [ProbeOf(res)];
        retry := retry + 1;
      }
      SettleLoopEnd(init, ps, RetryCount, value, stop, failed);
      SettledReadsIntro(h0, dev.history, ts, I2c.ReadByteData(opcode), RetryCount, init, ps);
    }

    /** One buffer read, of a block or of a message pair. */
    method ReadBuffer(block: bool, cmd: Byte, size: Byte) returns (res: int, values: seq<Byte>)
      modifies dev
      ensures dev.history == old(dev.history) +
        [I2c.Transaction(if block then I2c.ReadBlockData(cmd, size)
                         else I2c.RdWr([I2c.WriteMsg([cmd]), I2c.ReadMsg(size)]), res, values)]
    {
      if block {
        res, values := ReadBlockData(dev, cmd, size);
      } else {
        res, values := ReadBlobCmd(dev, cmd, size);
      }
    }

    /** The "same answer twice" loop over a buffer. */
    method ReadSettledData(block: bool, cmd: Byte, size: Byte)
      returns (failed: bool, value: seq<Byte>)
      modifies dev
      ensures SettledData(old(dev.history), dev.history,
                          if block then I2c.ReadBlockData(cmd, size)
                          else I2c.RdWr([I2c.WriteMsg([cmd]), I2c.ReadMsg(size)]),
                          RetryCount, Zeros(size), value, failed)
    {
      ghost var req := if block then I2c.ReadBlockData(cmd, size)
                       else I2c.RdWr([I2c.WriteMsg([cmd]), I2c.ReadMsg(size)]);
      ghost var init := Zeros(size);
      ghost var h0 := dev.history;
      ghost var ts: seq<I2c.Transaction> := [];
      ghost var ps: seq<Probe<seq<Byte>>> := [];
      value, failed := Zeros(size), false;
      var retry, stop := 0, false;
      while retry < RetryCount && !stop
        invariant |ts| == retry && dev.history == h0 + ts
        invariant AllRequests(ts, req) && ps == DataProbes(ts)
        invariant SettleLoop(init, ps, RetryCount, value, stop, failed)
      {
        var res, tmp := ReadBuffer(block, cmd, size);
        ghost var t := dev.history[|dev.history| - 1];
        DataProbesAppend(ts, t);
        SettleLoopStep(init, ps, RetryCount, value, DataProbeOf(t));
        failed, stop := res < 0, res < 0 || tmp == value;
        if res >= 0 {
          value := tmp;
        }
        ts, ps := ts + [t], ps + [DataProbeOf(t)];
        retry := retry + 1;
      }
      SettleLoopEnd(init, ps, RetryCount, value, stop, failed);
      SettledDataIntro(h0, dev.history, ts, req, RetryCount, init, ps);
    }

    /** getDrivesPresence: on a failed read the register keeps the last
      * answer the loop got. */
    method GetDrivesPresence() returns (r: Result<()>)
      modifies this`dPresence, dev
      ensures SettledReads(old(dev.history), dev.history, I2c.ReadByteData(OpcGetDiscPresence),
                           RetryCount, old(dPresence), dPresence, r.Err?)
      ensures r.Err? ==> r.msg == CommFailure
      ensures r.Ok? ==> dPresence >= 0
    {
      var failed;
      failed, dPresence := ReadSettled(OpcGetDiscPresence, dPresence);
      r := if failed then Err(CommFailure) else Ok(());
    }

    method GetDrivesFailures() returns (r: Result<()>)
      modifies this`dFailures, dev
      ensures SettledReads(old(dev.history), dev.history, I2c.ReadByteData(OpcGetDiscFailures),
                           RetryCount, old(dFailures), dFailures, r.Err?)
      ensures r.Err? ==> r.msg == CommFailure
      ensures r.Ok? ==> dFailures >= 0
    {
      var failed;
      failed, dFailures := ReadSettled(OpcGetDiscFailures, dFailures);
      r := if failed then Err(CommFailure) else Ok(());
    }

    /** drivePresent: reads the presence register only while nothing is
      * cached, then tests the channel's bit. */
    method DrivePresent(ch: nat) returns (r: Result<bool>)
      requires ch < MaxChannels
      modifies this`dPresence, dev
      ensures old(dPresence) >= 0 ==> dev.history == old(dev.history) && dPresence == old(dPresence)
      ensures old(dPresence) < 0 ==>
        SettledReads(old(dev.history), dev.history, I2c.ReadByteData(OpcGetDiscPresence),
                     RetryCount, old(dPresence), dPresence, r.Err?)
      ensures r.Err? ==> old(dPresence) < 0 && r.msg == CommFailure
      ensures r.Ok? ==> dPresence >= 0 && r.value == Bit(dPresence, ch)
    {
      if dPresence < 0 {
        var g := GetDrivesPresence();
        if g.Err? {
          return Err(g.msg);
        }
      }
      r := Ok(Bit(dPresence, ch));
    }

    method DriveFailured(ch: nat) returns (r: Result<bool>)
      requires ch < MaxChannels
      modifies this`dFailures, dev
      ensures old(dFailures) >= 0 ==> dev.history == old(dev.history) && dFailures == old(dFailures)
      ensures old(dFailures) < 0 ==>
        SettledReads(old(dev.history), dev.history, I2c.ReadByteData(OpcGetDiscFailures),
                     RetryCount, old(dFailures), dFailures, r.Err?)
      ensures r.Err? ==> old(dFailures) < 0 && r.msg == CommFailure
      ensures r.Ok? ==> dFailures >= 0 && r.value == Bit(dFailures, ch)
    {
      if dFailures < 0 {
        var g := GetDrivesFailures();
        if g.Err? {
          return Err(g.msg);
        }
      }
      r := Ok(Bit(dFailures, ch));
    }

    /** One round of driveType: the channel written to the disc type
      * register, then, unless that failed, a byte read. */
    method TypeRound(ch: Byte) returns (res: int, ghost round: seq<I2c.Transaction>)
      modifies dev
      ensures dev.history == old(dev.history) + round && TypeRounds(round, ch, [ProbeOf(res)])
    {
      res := WriteByteData(dev, OpcGetDiscType, ch);
      ghost var w := dev.history[|dev.history| - 1];
      if res < 0 {
        round := [w];
        FailedRound(w, ch);
      } else {
        res := ReadByte(dev);
        round := [w, dev.history[|dev.history| - 1]];
        ReadRound(w, round[1], ch);
      }
    }

    /** driveType: "same answer twice" over rounds of a register write and a
      * byte read, starting from -1; any failed call fails the whole read. */
    method DriveType(ch: Byte) returns (r: Result<DriveType>, ghost ps: seq<Probe<int>>)
      modifies dev
      ensures Extends(old(dev.history), dev.history)
      ensures TypeRounds(dev.history[|old(dev.history)|..], ch, ps)
      ensures SettleRun(-1, ps, RetryCount)
      ensures r == if ps[|ps| - 1].Failed? then Err(CommFailure) else Ok(DecodeDiscType(Kept(-1, ps)))
    {
      ghost var h0 := dev.history;
      ghost var ts: seq<I2c.Transaction> := [];
      ps := [];
      var t: int := -1;
      var retry, stop, failed := 0, false, false;
      while retry < RetryCount && !stop
        invariant |ps| == retry && dev.history == h0 + ts && TypeRounds(ts, ch, ps)
        invariant SettleLoop(-1, ps, RetryCount, t, stop, failed)
      {
        var res, round := TypeRound(ch);
        TypeRoundsAppend(ts, ch, ps, round, ProbeOf(res));
        SettleLoopStep(-1, ps, RetryCount, t, ProbeOf(res));
        failed, stop := res < 0, res < 0 || res == t;
        if res >= 0 {
          t := res;
        }
        ts, ps := ts + round, ps + [ProbeOf(res)];
        retry := retry + 1;
      }
      SettleLoopEnd(-1, ps, RetryCount, t, stop, failed);
      assert dev.history[|h0|..] == ts;
      r := if failed then Err(CommFailure) else Ok(DecodeDiscType(t));
    }

    /** Starts or stops the locate LED of a channel. */
    method SetDriveLocationLED(ch: Byte, on: bool) returns (r: Result<()>)
      modifies dev
      ensures OneCall(old(dev.history), dev.history,
                      I2c.WriteByteData(if on then OpcDiscLocateStart else OpcDiscLocateStop, ch))
      ensures r == if dev.history[|dev.history| - 1].res < 0 then Err(CommFailure) else Ok(())
    {
      var res := WriteByteData(dev, if on then OpcDiscLocateStart else OpcDiscLocateStop, ch);
      r := if res < 0 then Err(CommFailure) else Ok(());
    }

    /** The version 0 firmware cannot report the LED state. */
    method GetDriveLocationLED(ch: Byte) returns (r: Result<bool>)
      ensures r == Err(NotSupported)
    {
      r := Err(NotSupported);
    }

    /** Stops the locate LED of every channel in turn; the first failure stops
      * the loop. */
    method ResetDriveLocationLEDs() returns (r: Result<()>)
      modifies dev
      ensures Extends(old(dev.history), dev.history)
      ensures var ts := dev.history[|old(dev.history)|..];
        && 1 <= |ts| <= MaxChannels
        && (forall i :: 0 <= i < |ts| ==> ts[i].req == I2c.WriteByteData(OpcDiscLocateStop, i))
        && (forall i :: 0 <= i < |ts| - 1 ==> ts[i].res >= 0)
        && (r.Ok? <==> |ts| == MaxChannels && ts[|ts| - 1].res >= 0)
        && (r.Err? ==> r.msg == CommFailure)
    {
      ghost var h0 := dev.history;
      ghost var ts: seq<I2c.Transaction> := [];
      var ch := 0;
      while ch < MaxChannels
        invariant 0 <= ch <= MaxChannels && |ts| == ch && dev.history == h0 + ts
        invariant forall i :: 0 <= i < ch ==> ts[i].req == I2c.WriteByteData(OpcDiscLocateStop, i)
        invariant forall i :: 0 <= i < ch ==> ts[i].res >= 0
      {
        var s := SetDriveLocationLED(ch, false);
        ts := ts + [dev.history[|dev.history| - 1]];
        assert dev.history == h0 + ts;
        if s.Err? {
          assert dev.history[|h0|..] == ts;
          return s;
        }
        ch := ch + 1;
      }
      assert dev.history[|h0|..] == ts;
      r := Ok(());
    }

    method SetHostPowerState(powered: bool) returns (r: Result<()>)
      modifies dev
      ensures OneCall(old(dev.history), dev.history,
                      I2c.WriteByte(if powered then OpcHostPowerOn else OpcHostPowerOff))
      ensures r == if dev.history[|dev.history| - 1].res < 0 then Err(CommFailure) else Ok(())
    {
      var res := WriteByte(dev, if powered then OpcHostPowerOn else OpcHostPowerOff);
      r := if res < 0 then Err(CommFailure) else Ok(());
    }

    /** isStateChanged: refreshes both registers, then compares their
      * fingerprint with the caller's cache and stores it there. A failed read
      * leaves the cache as it was. `mid` is the history between the two
      * refreshes. */
    method IsStateChanged(cache: bv32) returns (r: Result<bool>, newCache: bv32, ghost mid: seq<I2c.Transaction>)
      modifies this`dPresence, this`dFailures, dev
      ensures SettledReads(old(dev.history), mid, I2c.ReadByteData(OpcGetDiscPresence),
                           RetryCount, old(dPresence), dPresence, mid == dev.history && r.Err?)
      ensures mid != dev.history ==>
        SettledReads(mid, dev.history, I2c.ReadByteData(OpcGetDiscFailures),
                     RetryCount, old(dFailures), dFailures, r.Err?)
      ensures mid == dev.history ==> dFailures == old(dFailures)
      ensures r.Err? ==> r.msg == CommFailure && newCache == cache
      ensures r.Ok? ==>
        dPresence >= 0 && dFailures >= 0 &&
        newCache == Fingerprint(dPresence, dFailures) && r.value == (newCache != cache)
    {
      var g := GetDrivesPresence();
      mid := dev.history;
      if g.Err? {
        return Err(g.msg), cache, mid;
      }
      ghost var h1 := dev.history;
      g := GetDrivesFailures();
      assert |dev.history| > |h1|;
      if g.Err? {
        return Err(g.msg), cache, mid;
      }
      var newState := Fingerprint(dPresence, dFailures);
      r := Ok(newState != cache);
      newCache := newState;
    }

    /** ping: the identification register answers. */
    method Ping() returns (alive: bool)
      modifies dev
      ensures OneCall(old(dev.history), dev.history, I2c.ReadByteData(OpcGetIdent))
      ensures alive == (dev.history[|dev.history| - 1].res >= 0)
    {
      var res := ReadByteData(dev, OpcGetIdent);
      alive := res >= 0;
    }

    method Reboot() returns (r: Result<()>)
      modifies dev
      ensures OneCall(old(dev.history), dev.history, I2c.WriteByte(OpcReboot))
      ensures r == if dev.history[|dev.history| - 1].res < 0 then Err(CommFailure) else Ok(())
    {
      var res := WriteByte(dev, OpcReboot);
      r := if res < 0 then Err(CommFailure) else Ok(());
    }

    /** Erases the flash and starts writing again at offset zero. */
    method EraseFlash() returns (r: Result<()>)
      modifies this`flashOffset, dev
      ensures OneCall(old(dev.history), dev.history, I2c.WriteByte(OpcFlashErase))
      ensures r == if dev.history[|dev.history| - 1].res < 0 then Err(CommFailure) else Ok(())
      ensures flashOffset == if r.Ok? then 0 else old(flashOffset)
    {
      var res := WriteByte(dev, OpcFlashErase);
      if res < 0 {
        return Err(CommFailure);
      }
      flashOffset := 0;
      r := Ok(());
    }

    /** The read-back loop of writeFlash. */
    method ReadBack(header: seq<Byte>, data: seq<Byte>) returns (res: int, ghost rs: seq<I2c.Transaction>)
      requires |header| == HeaderSize && |data| < 256
      modifies dev
      ensures dev.history == old(dev.history) + rs
      ensures VerifyRun(rs, I2c.RdWr([I2c.WriteMsg(header), I2c.ReadMsg(|data|)]), data, res >= 0)
    {
      ghost var h1 := dev.history;
      assert header[..HeaderSize] == header;
      rs := [];
      res := 0;
      var rtr := 0;
      var verified := false;
      while rtr < RetryCount && !verified
        invariant 0 <= rtr <= RetryCount && |rs| == rtr && dev.history == h1 + rs
        invariant AllRequests(rs, I2c.RdWr([I2c.WriteMsg(header), I2c.ReadMsg(|data|)]))
        invariant forall j :: 0 <= j < |rs| - 1 ==> rs[j].res < 0 || rs[j].rx != data
        invariant rtr > 0 ==> res == rs[|rs| - 1].res
        invariant verified <==> rtr > 0 && res >= 0 && rs[|rs| - 1].rx == data
      {
        var rx;
        res, rx := Transfer(dev, HeaderSize, header, |data|);
        rs := rs + [dev.history[|dev.history| - 1]];
        verified := res >= 0 && rx == data;
        rtr := rtr + 1;
      }
    }

    /** writeFlash: writes a packet with the chunk at the current offset, then
      * reads the chunk back; only a transport error fails the write, and a
      * successful write advances the 32-bit offset by the chunk's length. */
    method WriteFlash(data: seq<Byte>) returns (r: Result<()>)
      requires |data| < 256
      modifies this`flashOffset, dev
      ensures Extends(old(dev.history), dev.history)
      ensures FlashWritten(dev.history[|old(dev.history)|..], old(flashOffset), data, r)
      ensures flashOffset == if r.Ok? then (old(flashOffset) + |data|) % 0x1_0000_0000 else old(flashOffset)
    {
      ghost var h0 := dev.history;
      var buf := FlashHeader(OpcFlashWrite, flashOffset, |data|) + data;
      var res := WriteBlob(dev, FrameLength(|data|), buf);
      ghost var w := dev.history[|h0|];
      assert w.req == FlashWriteRequest(flashOffset, data);
      if res < 0 {
        FlashWrittenOnce(h0, dev.history, flashOffset, data);
        return Err(CommFailure);
      }
      ghost var h1 := dev.history;
      ghost var rs;
      res, rs := ReadBack(FlashHeader(OpcFlashRead, flashOffset, |data|), data);
      r := if res < 0 then Err(FlashFailure) else Ok(());
      FlashWrittenBack(h0, h1, dev.history, rs, flashOffset, data, r);
      if res >= 0 {
        flashOffset := (flashOffset + |data|) % 0x1_0000_0000;
      }
    }

    /** getFwVersion: the settled 60-byte answer, trimmed; an empty string
      * when a read fails. */
    method GetFwVersion() returns (version: string, ghost kept: seq<Byte>, ghost failed: bool)
      modifies dev
      ensures SettledData(old(dev.history), dev.history, VersionRequest, RetryCount,
                          Zeros(VersionSize), kept, failed)
      ensures version == if failed then "" else Common.Rtrim(BytesToString(kept), Common.DefaultTrimChars)
    {
      var f, v := ReadSettledData(false, OpcGetVersion, VersionSize);
      kept, failed := v, f;
      version := if f then "" else Common.Rtrim(BytesToString(v), Common.DefaultTrimChars);
    }

    /** getBoardType: the settled 32-byte block, trimmed; an empty string
      * when a read fails. */
    method GetBoardType() returns (boardType: string, ghost kept: seq<Byte>, ghost failed: bool)
      modifies dev
      ensures SettledData(old(dev.history), dev.history, BoardTypeRequest, RetryCount,
                          Zeros(BoardTypeSize), kept, failed)
      ensures boardType == if failed then "" else Common.Rtrim(BytesToString(kept), Common.DefaultTrimChars)
    {
      var f, v := ReadSettledData(true, OpcGetBoardType, BoardTypeSize);
      kept, failed := v, f;
      boardType := if f then "" else Common.Rtrim(BytesToString(v), Common.DefaultTrimChars);
    }
  }
}
