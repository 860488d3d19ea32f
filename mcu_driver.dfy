// What the backplane MCU drivers share: the drive types they report, the
// channel count, the fingerprint of the drive state, and the "same answer
// twice" rule protocol version 0 uses against corrupted answers.
module McuDriver {
  import opened Wrappers
  import I2c

  /** Drive channels on a backplane (`maxChannelsNumber`). */
  const MaxChannels: nat := 8

  const CommFailure: string := "Failed to communicate with MCU"
  const FlashFailure: string := "Failed to write MCU Flash"
  const NotSupported: string := "Operation not supported"
  const InitFailure: string := "Failed to initialize MCU driver"

  datatype DriveType = Unknown | NoDisk | SataSas | NVMe

  /** The disc type codes both protocol versions use. */
  function DecodeDiscType(code: int): (t: DriveType)
    ensures t == NoDisk <==> code == 0
    ensures t == SataSas <==> code == 1
    ensures t == NVMe <==> code == 2
    ensures t == Unknown <==> code !in {0, 1, 2}
  {
    match code
    case 0 => NoDisk
    case 1 => SataSas
    case 2 => NVMe
    case _ => Unknown
  }

  /** The two-bit field of channel `ch` in a word of packed disc types
    * (`(types >> (ch * 2)) & 0x3`). */
  function TypeField(types: nat, ch: nat): (f: nat)
    ensures f < 4
  {
    if ch == 0 then types % 4 else TypeField(types / 4, ch - 1)
  }

  /** Packs two-bit fields, channel 0 in the lowest bits. */
  function PackTypes(fields: seq<nat>): nat
    requires forall i :: 0 <= i < |fields| ==> fields[i] < 4
  {
    if fields == [] then 0 else fields[0] + 4 * PackTypes(fields[1..])
  }

  /** Each channel reads back the field packed for it. */
  lemma {:induction false} TypeFieldOfPack(fields: seq<nat>, ch: nat)
    requires forall i :: 0 <= i < |fields| ==> fields[i] < 4
    requires ch < |fields|
    ensures TypeField(PackTypes(fields), ch) == fields[ch]
    decreases ch
  {
    var p := PackTypes(fields[1..]);
    assert PackTypes(fields) == fields[0] + 4 * p;
    assert (fields[0] + 4 * p) % 4 == fields[0];
    if ch > 0 {
      assert (fields[0] + 4 * p) / 4 == p;
      TypeFieldOfPack(fields[1..], ch - 1);
    }
  }

  /** `x & (1 << i)` compared with zero. */
  predicate Bit(x: nat, i: nat)
  {
    if i == 0 then x % 2 == 1 else Bit(x / 2, i - 1)
  }

  /** `x | (1 << i)` when `on`, `x & ~(1 << i)` otherwise: a location LED
    * mask after switching one LED. */
  function SetBit(x: nat, i: nat, on: bool): nat
  {
    if i == 0 then x / 2 * 2 + (if on then 1 else 0)
    else 2 * SetBit(x / 2, i - 1, on) + x % 2
  }

  /** The switched LED is in the requested state; every other LED keeps its
    * state. */
  lemma {:induction false} SetBitBits(x: nat, i: nat, on: bool, j: nat)
    ensures Bit(SetBit(x, i, on), i) == on
    ensures j != i ==> Bit(SetBit(x, i, on), j) == Bit(x, j)
    decreases i
  {
    var r := SetBit(x, i, on);
    if i == 0 {
      assert r % 2 == (if on then 1 else 0);
      if j > 0 {
        assert r / 2 == x / 2;
        assert Bit(r, j) == Bit(r / 2, j - 1) && Bit(x, j) == Bit(x / 2, j - 1);
      }
    } else {
      var s := SetBit(x / 2, i - 1, on);
      assert r / 2 == s && r % 2 == x % 2;
      SetBitBits(x / 2, i - 1, on, if j == 0 then 0 else j - 1);
      if j > 0 {
        assert Bit(r, j) == Bit(s, j - 1) && Bit(x, j) == Bit(x / 2, j - 1);
      }
    }
  }

  /** Switching an LED of a byte-wide mask gives a byte-wide mask again. */
  lemma {:induction false} SetBitByte(x: nat, i: nat, on: bool, k: nat)
    requires i < k && x < Pow2(k)
    ensures SetBit(x, i, on) < Pow2(k)
    decreases i
  {
    var p := Pow2(k - 1);
    assert Pow2(k) == 2 * p;
    assert x / 2 < p;
    if i > 0 {
      SetBitByte(x / 2, i - 1, on, k - 1);
      assert SetBit(x, i, on) == 2 * SetBit(x / 2, i - 1, on) + x % 2;
    }
  }

  function Pow2(k: nat): (p: nat)
    ensures p >= 1
  {
    if k == 0 then 1 else 2 * Pow2(k - 1)
  }

  /** Switching an LED changes the mask exactly when the LED was in the
    * other state. */
  lemma {:induction false} SetBitUnchanged(x: nat, i: nat, on: bool)
    ensures SetBit(x, i, on) == x <==> Bit(x, i) == on
    decreases i
  {
    if i > 0 {
      SetBitUnchanged(x / 2, i - 1, on);
      assert SetBit(x, i, on) == 2 * SetBit(x / 2, i - 1, on) + x % 2;
      assert x == 2 * (x / 2) + x % 2;
    }
  }

  /** The LED mask written after switching one LED of a byte-wide mask. */
  function SwitchLed(x: Byte, i: nat, on: bool): (r: Byte)
    requires i < MaxChannels
    ensures r == SetBit(x, i, on)
  {
    assert Pow2(8) == 256;
    SetBitByte(x, i, on, 8);
    SetBit(x, i, on)
  }

  /** What the drive-state fingerprint holds: presence bits OR'ed with
    * failure bits shifted right by eight, in 32 bits. */
  function Fingerprint(presence: Byte, failures: Byte): bv32
  {
    (presence as bv32) | ((failures as bv32) >> 8)
  }

  /** The shift goes the wrong way for a byte: the failure bits never reach
    * the fingerprint, so a change of failures alone does not count as a
    * change of state. */
  lemma FingerprintIgnoresFailures(presence: Byte, f1: Byte, f2: Byte)
    ensures Fingerprint(presence, f1) == presence as bv32
    ensures Fingerprint(presence, f1) == Fingerprint(presence, f2)
  {
    assert (f1 as bv32) >> 8 == 0;
    assert (f2 as bv32) >> 8 == 0;
  }

  /** One read of a retried register: it failed, or it got a value. */
  datatype Probe<T> = Failed | Got(value: T)

  predicate AllGot<T>(ps: seq<Probe<T>>, n: nat)
    requires n <= |ps|
  {
    forall j :: 0 <= j < n ==> ps[j].Got?
  }

  /** The value the loop holds before read `i`. */
  function Held<T>(init: T, ps: seq<Probe<T>>, i: nat): T
    requires i <= |ps| && AllGot(ps, i)
  {
    if i == 0 then init else ps[i - 1].value
  }

  /** `ps` is the whole sequence of reads a "same answer twice" loop makes
    * when it starts out holding `init` and may read `limit` times: every read
    * but the last got an answer different from the value held, and the loop
    * stops at a failed read, at an answer equal to the value held, or when
    * its reads run out. */
  predicate SettleRun<T(==)>(init: T, ps: seq<Probe<T>>, limit: nat)
  {
    && 1 <= |ps| <= limit
    && AllGot(ps, |ps| - 1)
    && (forall j :: 0 <= j < |ps| - 1 ==> ps[j].value != Held(init, ps, j))
    && var last := ps[|ps| - 1];
       last.Failed? || last.value == Held(init, ps, |ps| - 1) || |ps| == limit
  }

  /** The value held when the loop ends: the last answer, or, after a failed
    * read, the one before it. */
  function Kept<T>(init: T, ps: seq<Probe<T>>): T
    requires |ps| >= 1 && AllGot(ps, |ps| - 1)
  {
    var last := ps[|ps| - 1];
    if last.Failed? then Held(init, ps, |ps| - 1) else last.value
  }

  /** The stopping rule determines the run: of two runs over the same answers,
    * neither is a proper prefix of the other. */
  lemma SettleRunUnique<T>(init: T, ps: seq<Probe<T>>, qs: seq<Probe<T>>, limit: nat)
    requires SettleRun(init, ps, limit) && SettleRun(init, qs, limit)
    requires |ps| <= |qs| && ps == qs[..|ps|]
    ensures ps == qs
  {
  }

  /** A device that always gives the same answer `v` is read at most twice,
    * and once when `v` is what the loop already held; the loop keeps `v`. */
  lemma SettleRunStable<T>(init: T, ps: seq<Probe<T>>, limit: nat, v: T)
    requires SettleRun(init, ps, limit) && limit >= 2
    requires forall j :: 0 <= j < |ps| ==> ps[j] == Got(v)
    ensures |ps| <= 2 && Kept(init, ps) == v
    ensures init == v ==> |ps| == 1
    ensures init != v ==> |ps| == 2
  {
    assert ps[0] == Got(v) && Held(init, ps, 0) == init;
    if |ps| >= 2 {
      assert ps[1] == Got(v) && Held(init, ps, 1) == v;
    }
  }

  /** A successful run that did not use up its reads ends on two equal
    * answers in a row (or an answer equal to what was held before). */
  lemma SettleRunAgreed<T>(init: T, ps: seq<Probe<T>>, limit: nat)
    requires SettleRun(init, ps, limit)
    requires ps[|ps| - 1].Got? && |ps| < limit
    ensures Kept(init, ps) == Held(init, ps, |ps| - 1)
    ensures |ps| >= 2 ==> ps[|ps| - 2] == ps[|ps| - 1]
  {
  }

  /** A loop that has not stopped yet: every read got an answer different
    * from the value held before it. */
  predicate Unsettled<T(==)>(init: T, ps: seq<Probe<T>>)
  {
    AllGot(ps, |ps|) && forall j :: 0 <= j < |ps| ==> ps[j].value != Held(init, ps, j)
  }

  lemma UnsettledStep<T>(init: T, ps: seq<Probe<T>>, v: T)
    requires Unsettled(init, ps) && v != Held(init, ps, |ps|)
    ensures Unsettled(init, ps + [Got(v)])
    ensures Held(init, ps + [Got(v)], |ps| + 1) == v
  {
    var qs := ps + [Got(v)];
    forall j | 0 <= j < |qs|
      ensures qs[j].Got? && qs[j].value != Held(init, qs, j)
    {
      if j < |ps| {
        assert qs[j] == ps[j];
        assert Held(init, qs, j) == Held(init, ps, j);
      }
    }
  }

  /** The ways a loop stops: a failed read, an answer equal to the value
    * held, or its last read. */
  lemma SettleByFailure<T>(init: T, ps: seq<Probe<T>>, limit: nat)
    requires Unsettled(init, ps) && |ps| < limit
    ensures SettleRun(init, ps + [Failed], limit)
    ensures Kept(init, ps + [Failed]) == Held(init, ps, |ps|)
  {
    var qs := ps + [Failed];
    forall j | 0 <= j < |ps|
      ensures qs[j] == ps[j] && Held(init, qs, j) == Held(init, ps, j)
    {
    }
  }

  lemma SettleByAgreement<T>(init: T, ps: seq<Probe<T>>, limit: nat, v: T)
    requires Unsettled(init, ps) && |ps| < limit && v == Held(init, ps, |ps|)
    ensures SettleRun(init, ps + [Got(v)], limit)
    ensures Kept(init, ps + [Got(v)]) == v
  {
    var qs := ps + [Got(v)];
    forall j | 0 <= j < |ps|
      ensures qs[j] == ps[j] && Held(init, qs, j) == Held(init, ps, j)
    {
    }
  }

  lemma SettleByExhaustion<T>(init: T, ps: seq<Probe<T>>, limit: nat)
    requires Unsettled(init, ps) && 1 <= |ps| == limit
    ensures SettleRun(init, ps, limit)
    ensures Kept(init, ps) == ps[|ps| - 1].value
  {
  }

  /** The state of a "same answer twice" loop after the reads `ps`: while it
    * goes on, `value` is the value held; once it has stopped, the reads are a
    * whole run, `value` is what it keeps and `failed` how it ended. */
  predicate SettleLoop<T(==)>(init: T, ps: seq<Probe<T>>, limit: nat, value: T, stop: bool, failed: bool)
  {
    && (!stop ==> Unsettled(init, ps) && |ps| <= limit && value == Held(init, ps, |ps|) && !failed)
    && (stop ==> SettleRun(init, ps, limit) && value == Kept(init, ps) && failed == ps[|ps| - 1].Failed?)
  }

  /** What the loop holds after read `p`. */
  function NextHeld<T(==)>(value: T, p: Probe<T>): T
  {
    if p.Got? then p.value else value
  }

  /** Whether the loop stops at read `p`. */
  predicate StopsAt<T(==)>(value: T, p: Probe<T>)
  {
    p.Failed? || p.value == value
  }

  /** One more read of a loop that is still going. */
  lemma SettleLoopStep<T>(init: T, ps: seq<Probe<T>>, limit: nat, value: T, p: Probe<T>)
    requires SettleLoop(init, ps, limit, value, false, false) && |ps| < limit
    ensures SettleLoop(init, ps + [p], limit, NextHeld(value, p), StopsAt(value, p), p.Failed?)
  {
    if p.Failed? {
      SettleByFailure(init, ps, limit);
    } else if p.value == value {
      SettleByAgreement(init, ps, limit, p.value);
    } else {
      UnsettledStep(init, ps, p.value);
    }
  }

  /** A loop that stopped, or ran out of reads, made a whole run. */
  lemma SettleLoopEnd<T>(init: T, ps: seq<Probe<T>>, limit: nat, value: T, stop: bool, failed: bool)
    requires SettleLoop(init, ps, limit, value, stop, failed)
    requires stop || (|ps| == limit && limit >= 1)
    ensures SettleRun(init, ps, limit) && value == Kept(init, ps) && failed == ps[|ps| - 1].Failed?
  {
    if !stop {
      SettleByExhaustion(init, ps, limit);
    }
  }

  /** A transaction's result as a read of a byte or word register. */
  function ProbeOf(res: int): Probe<int>
  {
    if res < 0 then Failed else Got(res)
  }

  function ResultProbes(ts: seq<I2c.Transaction>): (ps: seq<Probe<int>>)
    ensures |ps| == |ts|
    ensures forall i :: 0 <= i < |ts| ==> ps[i] == ProbeOf(ts[i].res)
  {
    seq(|ts|, i requires 0 <= i < |ts| => ProbeOf(ts[i].res))
  }

  lemma ResultProbesAppend(ts: seq<I2c.Transaction>, t: I2c.Transaction)
    ensures ResultProbes(ts + [t]) == ResultProbes(ts) + [ProbeOf(t.res)]
  {
  }

  /** A transaction's result as a read of a buffer. */
  function DataProbeOf(t: I2c.Transaction): Probe<seq<Byte>>
  {
    if t.res < 0 then Failed else Got(t.rx)
  }

  function DataProbes(ts: seq<I2c.Transaction>): (ps: seq<Probe<seq<Byte>>>)
    ensures |ps| == |ts|
    ensures forall i :: 0 <= i < |ts| ==> ps[i] == DataProbeOf(ts[i])
  {
    seq(|ts|, i requires 0 <= i < |ts| => DataProbeOf(ts[i]))
  }

  lemma DataProbesAppend(ts: seq<I2c.Transaction>, t: I2c.Transaction)
    ensures DataProbes(ts + [t]) == DataProbes(ts) + [DataProbeOf(t)]
  {
  }

  /** `h1` is `h0` with transactions appended. */
  predicate Extends(h0: seq<I2c.Transaction>, h1: seq<I2c.Transaction>)
  {
    |h0| <= |h1| && h1[..|h0|] == h0
  }

  predicate AllRequests(ts: seq<I2c.Transaction>, req: I2c.Request)
  {
    forall i :: 0 <= i < |ts| ==> ts[i].req == req
  }

  /** The transactions from `h0` to `h1` are a "same answer twice" run of
    * `req` from `init`; `kept` is what the loop holds afterwards and `failed`
    * whether it ended on a failed read. */
  predicate SettledReads(h0: seq<I2c.Transaction>, h1: seq<I2c.Transaction>, req: I2c.Request,
                         limit: nat, init: int, kept: int, failed: bool)
  {
    && Extends(h0, h1)
    && var ts := h1[|h0|..];
       var ps := ResultProbes(ts);
       && AllRequests(ts, req)
       && SettleRun(init, ps, limit)
       && kept == Kept(init, ps)
       && failed == ps[|ps| - 1].Failed?
  }

  lemma SettledReadsIntro(h0: seq<I2c.Transaction>, h1: seq<I2c.Transaction>, ts: seq<I2c.Transaction>,
                          req: I2c.Request, limit: nat, init: int, ps: seq<Probe<int>>)
    requires h1 == h0 + ts && AllRequests(ts, req) && ps == ResultProbes(ts)
    requires SettleRun(init, ps, limit)
    ensures SettledReads(h0, h1, req, limit, init, Kept(init, ps), ps[|ps| - 1].Failed?)
  {
    assert h1[|h0|..] == ts;
  }

  /** The transactions from `h0` to `h1` are a "same answer twice" run of
    * buffer reads `req` from `init`; as `SettledReads` for buffers. */
  predicate SettledData(h0: seq<I2c.Transaction>, h1: seq<I2c.Transaction>, req: I2c.Request,
                        limit: nat, init: seq<Byte>, kept: seq<Byte>, failed: bool)
  {
    && Extends(h0, h1)
    && var ts := h1[|h0|..];
       var ps := DataProbes(ts);
       && AllRequests(ts, req)
       && SettleRun(init, ps, limit)
       && kept == Kept(init, ps)
       && failed == ps[|ps| - 1].Failed?
  }

  lemma SettledDataIntro(h0: seq<I2c.Transaction>, h1: seq<I2c.Transaction>, ts: seq<I2c.Transaction>,
                         req: I2c.Request, limit: nat, init: seq<Byte>, ps: seq<Probe<seq<Byte>>>)
    requires h1 == h0 + ts && AllRequests(ts, req) && ps == DataProbes(ts)
    requires SettleRun(init, ps, limit)
    ensures SettledData(h0, h1, req, limit, init, Kept(init, ps), ps[|ps| - 1].Failed?)
  {
    assert h1[|h0|..] == ts;
  }

  /** Exactly one transaction, of `req`, was appended; its result is `res`. */
  predicate OneCall(h0: seq<I2c.Transaction>, h1: seq<I2c.Transaction>, req: I2c.Request)
  {
    |h1| == |h0| + 1 && Extends(h0, h1) && h1[|h0|].req == req
  }

  function Zeros(n: nat): (bs: seq<Byte>)
    ensures |bs| == n && forall i :: 0 <= i < n ==> bs[i] == 0
  {
    seq(n, _ => 0)
  }

  // The transport calls as the drivers see them: each appends one
  // transaction, of the call's request, to the handle's history.

  method ReadByte(dev: I2c.I2cDev) returns (res: int)
    modifies dev
    ensures dev.history == old(dev.history) + [I2c.Transaction(I2c.ReadByte, res, [])] && res < 256
  {
    res := dev.ReadByte();
  }

  method WriteByte(dev: I2c.I2cDev, value: Byte) returns (res: int)
    modifies dev
    ensures dev.history == old(dev.history) + [I2c.Transaction(I2c.WriteByte(value), res, [])]
  {
    res := dev.WriteByte(value);
  }

  method ReadByteData(dev: I2c.I2cDev, cmd: Byte) returns (res: int)
    modifies dev
    ensures dev.history == old(dev.history) + [I2c.Transaction(I2c.ReadByteData(cmd), res, [])] && res < 256
  {
    res := dev.ReadByteData(cmd);
  }

  method WriteByteData(dev: I2c.I2cDev, cmd: Byte, value: Byte) returns (res: int)
    modifies dev
    ensures dev.history == old(dev.history) + [I2c.Transaction(I2c.WriteByteData(cmd, value), res, [])]
  {
    res := dev.WriteByteData(cmd, value);
  }

  method ReadWordData(dev: I2c.I2cDev, cmd: Byte) returns (res: int)
    modifies dev
    ensures dev.history == old(dev.history) + [I2c.Transaction(I2c.ReadWordData(cmd), res, [])] && res < 0x1_0000
  {
    res := dev.ReadWordData(cmd);
  }

  method ReadBlockData(dev: I2c.I2cDev, cmd: Byte, length: Byte) returns (res: int, values: seq<Byte>)
    modifies dev
    ensures dev.history == old(dev.history) + [I2c.Transaction(I2c.ReadBlockData(cmd, length), res, values)]
    ensures |values| == length
  {
    res, values := dev.ReadI2cBlockData(cmd, length);
  }

  method ReadBlob(dev: I2c.I2cDev, length: Byte) returns (res: int, values: seq<Byte>)
    modifies dev
    ensures dev.history == old(dev.history) +
      [I2c.Transaction(I2c.RdWr([I2c.ReadMsg(length)]), res, values)]
    ensures |values| == length
  {
    res, values := dev.ReadI2cBlob(length);
  }

  method ReadBlobCmd(dev: I2c.I2cDev, cmd: Byte, length: Byte) returns (res: int, values: seq<Byte>)
    modifies dev
    ensures dev.history == old(dev.history) +
      [I2c.Transaction(I2c.RdWr([I2c.WriteMsg([cmd]), I2c.ReadMsg(length)]), res, values)]
    ensures |values| == length
  {
    res, values := dev.ReadI2cBlobCmd(cmd, length);
  }

  method WriteBlob(dev: I2c.I2cDev, length: Byte, values: seq<Byte>) returns (res: int)
    requires length <= |values|
    modifies dev
    ensures dev.history == old(dev.history) +
      [I2c.Transaction(I2c.RdWr([I2c.WriteMsg(values[..length])]), res, [])]
  {
    res := dev.WriteI2cBlob(length, values);
  }

  method WriteBlobCmd(dev: I2c.I2cDev, cmd: Byte, length: Byte, values: seq<Byte>) returns (res: int)
    requires length <= |values|
    modifies dev
    ensures dev.history == old(dev.history) +
      [I2c.Transaction(I2c.RdWr([I2c.WriteMsg([cmd] + values[..length])]), res, [])]
  {
    res := dev.WriteI2cBlobCmd(cmd, length, values);
  }

  method Transfer(dev: I2c.I2cDev, txLen: Byte, tx: seq<Byte>, rxLen: Byte) returns (res: int, rx: seq<Byte>)
    requires txLen <= |tx|
    modifies dev
    ensures dev.history == old(dev.history) +
      [I2c.Transaction(I2c.RdWr([I2c.WriteMsg(tx[..txLen]), I2c.ReadMsg(rxLen)]), res, rx)]
    ensures |rx| == rxLen
  {
    res, rx := dev.I2cTransfer(txLen, tx, rxLen);
  }
}
