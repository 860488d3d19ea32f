// The I2C device handle of common_i2c.cpp. Opening the handle asks the
// adapter what it can do, selects the slave and may enable PEC; every
// primitive transfer is tried up to three times and then reported to the
// log through a guard that mutes long runs of failures.
//
// The bus itself is an oracle: `bus(k)` is what the kernel answers to the
// k-th attempt made through the handle.
module I2c {
  import opened Wrappers

  /** Attempts per primitive transfer. */
  const RetryCount: nat := 3
  /** Non-positive results in a row that are still logged in full. */
  const MaxLogErrors: nat := 3
  /** Largest value of the guard's counter (an 8-bit counter is assumed). */
  const CounterMax: nat := 255
  /** Largest SMBus block transfer, I2C_SMBUS_BLOCK_MAX. */
  const BlockSize: nat := 32

  type Counter = c: int | 0 <= c <= CounterMax

  /** The adapter functionality bits the handle insists on. */
  datatype Capability = SmbusByteData | SmbusI2cBlock | SmbusPec

  /** What the kernel answers to the calls made while opening the handle. */
  datatype Setup = Setup(openFd: int, funcsRes: int, funcs: set<Capability>,
                         slaveRes: int, pecRes: int)

  datatype SetupStep = OpenBus | QueryFuncs | CheckFuncs | SelectSlave | EnablePec

  /** One message of an I2C_RDWR transfer. */
  datatype Msg = WriteMsg(bytes: seq<Byte>) | ReadMsg(len: nat)

  /** One attempt on the bus, as the kernel sees it. */
  datatype Request =
    | ReadByte
    | WriteByte(value: Byte)
    | ReadByteData(cmd: Byte)
    | WriteByteData(cmd: Byte, value: Byte)
    | ReadWordData(cmd: Byte)
    | WriteWordData(cmd: Byte, word: Word)
    | ReadBlockData(cmd: Byte, len: Byte)
    | RdWr(msgs: seq<Msg>)

  /** The kernel's answer to one attempt: a status, negative on failure,
    * and the bytes the device supplied. */
  datatype Reply = Reply(status: int, data: seq<Byte>)

  /** One primitive call: its request, the value it returned after the
    * retries and the bytes it handed back to the caller. */
  datatype Transaction = Transaction(req: Request, res: int, rx: seq<Byte>)

  datatype LogLine =
    | SetupError(step: SetupStep)
    | TransferError(req: Request, res: int)
    | TransferDebug(req: Request, res: int)
    | SpamNotice(res: int)

  /** The first step of opening the handle that fails, if any. */
  function FailedStep(s: Setup, usePec: bool): Option<SetupStep>
  {
    if s.openFd < 0 then Some(OpenBus)
    else if s.funcsRes < 0 then Some(QueryFuncs)
    else if !({SmbusByteData, SmbusI2cBlock, SmbusPec} <= s.funcs) then Some(CheckFuncs)
    else if s.slaveRes < 0 then Some(SelectSlave)
    else if usePec && s.pecRes < 0 then Some(EnablePec)
    else None
  }

  /** The handle is usable exactly when every step succeeds; the adapter must
    * offer PEC even when PEC is not asked for. */
  lemma SetupSucceedsIff(s: Setup, usePec: bool)
    ensures FailedStep(s, usePec).None? <==>
      s.openFd >= 0 && s.funcsRes >= 0 && SmbusByteData in s.funcs &&
      SmbusI2cBlock in s.funcs && SmbusPec in s.funcs && s.slaveRes >= 0 &&
      (usePec ==> s.pecRes >= 0)
  {
  }

  function ByteAt(data: seq<Byte>, i: nat): Byte
  {
    if i < |data| then data[i] else 0
  }

  /** The `n` bytes a caller's buffer holds after a read: what the device
    * supplied, and zero where it supplied nothing. */
  function Fit(data: seq<Byte>, n: nat): (bs: seq<Byte>)
    ensures |bs| == n
  {
    seq(n, i requires 0 <= i < n => ByteAt(data, i))
  }

  function MsgReadLength(m: Msg): nat
  {
    if m.ReadMsg? then m.len else 0
  }

  function ReadLengthOf(msgs: seq<Msg>): nat
  {
    if msgs == [] then 0 else MsgReadLength(msgs[0]) + ReadLengthOf(msgs[1..])
  }

  lemma ReadLengthOfOne(m: Msg)
    ensures ReadLengthOf([m]) == MsgReadLength(m)
  {
    assert [m][1..] == [];
  }

  lemma ReadLengthOfTwo(m: Msg, m2: Msg)
    ensures ReadLengthOf([m, m2]) == MsgReadLength(m) + MsgReadLength(m2)
  {
    assert [m, m2][1..] == [m2];
    ReadLengthOfOne(m2);
  }

  /** `n` copies of `req`. */
  function Repeat(req: Request, n: nat): (rs: seq<Request>)
    ensures |rs| == n
  {
    if n == 0 then [] else Repeat(req, n - 1) + [req]
  }

  /** How many bytes a request reads into the caller's buffer. */
  function ReadLength(req: Request): nat
  {
    match req
    case ReadBlockData(_, len) => len
    case RdWr(msgs) => ReadLengthOf(msgs)
    case _ => 0
  }

  /** What one attempt returns to the retry loop. A failure is the negative
    * status; a successful SMBus byte or word read returns the value read
    * (little-endian for a word); anything else returns the status. */
  function AttemptResult(req: Request, reply: Reply): (res: int)
    ensures (res < 0) == (reply.status < 0)
    ensures (req.ReadByte? || req.ReadByteData?) ==> res < 256
    ensures req.ReadWordData? ==> res < 0x1_0000
  {
    if reply.status < 0 then reply.status
    else match req
      case ReadByte => ByteAt(reply.data, 0)
      case ReadByteData(_) => ByteAt(reply.data, 0)
      case ReadWordData(_) => ByteAt(reply.data, 0) + 256 * ByteAt(reply.data, 1)
      case _ => reply.status
  }

  /** Number of attempts the retry loop makes, starting at attempt `k` with
    * `left` attempts allowed, when attempt `j` returns `st(j)`: it stops at
    * the first non-negative result or when the attempts run out. */
  function Tries(st: nat -> int, k: nat, left: nat): (n: nat)
    requires left >= 1
    ensures 1 <= n <= left
    ensures forall j :: k <= j < k + n - 1 ==> st(j) < 0
    ensures n < left ==> st(k + n - 1) >= 0
    decreases left
  {
    if left == 1 || st(k) >= 0 then 1 else 1 + Tries(st, k + 1, left - 1)
  }

  /** The stopping rule determines the number of attempts. */
  lemma {:induction false} TriesUnique(st: nat -> int, k: nat, left: nat, n: nat)
    requires 1 <= n <= left
    requires forall j :: k <= j < k + n - 1 ==> st(j) < 0
    requires n == left || st(k + n - 1) >= 0
    ensures Tries(st, k, left) == n
    decreases left
  {
    if n > 1 {
      TriesUnique(st, k + 1, left - 1, n - 1);
    }
  }

  /** One step of the log guard: the new counter, whether the notice about
    * muting is logged, and whether the transfer itself is muted. */
  datatype SpamStep = SpamStep(counter: Counter, notice: bool, mute: bool)

  function SpamGuard(counter: Counter, res: int): SpamStep
  {
    if res > 0 then SpamStep(0, false, false)
    else
      var c := if counter < CounterMax then counter + 1 else counter;
      SpamStep(c, counter == MaxLogErrors, c > MaxLogErrors)
  }

  /** The guard's steps along a sequence of transfer results. */
  function SpamRun(counter: Counter, rs: seq<int>): (steps: seq<SpamStep>)
    ensures |steps| == |rs|
    decreases |rs|
  {
    if rs == [] then []
    else
      var s := SpamGuard(counter, rs[0]);
      [s] + SpamRun(s.counter, rs[1..])
  }

  function Notices(steps: seq<SpamStep>): nat
  {
    if steps == [] then 0
    else (if steps[0].notice then 1 else 0) + Notices(steps[1..])
  }

  /** Along a run of non-positive results the counter climbs by one per
    * result until it saturates. */
  lemma {:induction false} ErrorRunSteps(c: Counter, rs: seq<int>, i: nat)
    requires forall j :: 0 <= j < |rs| ==> rs[j] <= 0
    requires i < |rs|
    ensures SpamRun(c, rs)[i].counter == Min(c + i + 1, CounterMax)
    ensures SpamRun(c, rs)[i].notice == (Min(c + i, CounterMax) == MaxLogErrors)
    ensures SpamRun(c, rs)[i].mute == (Min(c + i + 1, CounterMax) > MaxLogErrors)
    decreases i
  {
    if i > 0 {
      ErrorRunSteps(SpamGuard(c, rs[0]).counter, rs[1..], i - 1);
    }
  }

  /** From a reset counter, a run of failures is logged in full for its
    * first three results and muted from the fourth on; the notice about
    * muting comes with the fourth. */
  lemma FreshErrorRun(rs: seq<int>, i: nat)
    requires forall j :: 0 <= j < |rs| ==> rs[j] <= 0
    requires i < |rs|
    ensures SpamRun(0, rs)[i].mute <==> i >= MaxLogErrors
    ensures SpamRun(0, rs)[i].notice <==> i == MaxLogErrors
  {
    ErrorRunSteps(0, rs, i);
  }

  /** A run of failures yields the muting notice at most once, and exactly
    * once when it is long enough to reach the threshold. */
  lemma {:induction false} NoticeOnce(c: Counter, rs: seq<int>)
    requires forall j :: 0 <= j < |rs| ==> rs[j] <= 0
    ensures Notices(SpamRun(c, rs)) == if c <= MaxLogErrors < c + |rs| then 1 else 0
    decreases |rs|
  {
    if rs != [] {
      var s := SpamGuard(c, rs[0]);
      assert SpamRun(c, rs)[1..] == SpamRun(s.counter, rs[1..]);
      NoticeOnce(s.counter, rs[1..]);
    }
  }

  /** A positive result resets the guard: what follows it is treated as if
    * the handle had just been opened. */
  lemma {:induction false} SuccessResets(c: Counter, pre: seq<int>, r: int, rs: seq<int>)
    requires r > 0
    ensures SpamRun(c, pre + [r] + rs)[|pre| + 1..] == SpamRun(0, rs)
    ensures SpamRun(c, pre + [r] + rs)[|pre|] == SpamStep(0, false, false)
    decreases |pre|
  {
    if pre == [] {
      assert [r] + rs == pre + [r] + rs;
      assert ([r] + rs)[1..] == rs;
    } else {
      var s := SpamGuard(c, pre[0]);
      assert (pre + [r] + rs)[1..] == pre[1..] + [r] + rs;
      SuccessResets(s.counter, pre[1..], r, rs);
    }
  }

  /** The lines logTransfer adds for one transfer once the guard has
    * stepped: the muting notice, then the transfer itself unless muted, as
    * an error when it failed and as a debug line only in verbose mode. */
  function TransferLog(s: SpamStep, req: Request, res: int, verbose: bool): seq<LogLine>
  {
    (if s.notice then [SpamNotice(res)] else [])
    + (if s.mute then []
       else if res < 0 then [TransferError(req, res)]
       else if verbose then [TransferDebug(req, res)]
       else [])
  }

  /** Logging policy: a failure the guard lets through is always logged as an
    * error, a success is logged only in verbose mode, and a muted transfer
    * leaves at most the notice. */
  lemma LoggingPolicy(s: SpamStep, req: Request, res: int, verbose: bool)
    ensures res < 0 && !s.mute ==> TransferError(req, res) in TransferLog(s, req, res, verbose)
    ensures res >= 0 ==> (TransferDebug(req, res) in TransferLog(s, req, res, verbose) <==> verbose && !s.mute)
    ensures s.mute ==> TransferLog(s, req, res, verbose) == if s.notice then [SpamNotice(res)] else []
  {
  }

  class I2cDev {
    /** Whether opening succeeded (`isOk()`). */
    const ok: bool
    /** The process-wide verbose switch. */
    const verbose: bool
    /** What the kernel answers to the k-th attempt through this handle. */
    const bus: nat -> Reply
    /** Every attempt made on the bus, in order. */
    var calls: seq<Request>
    /** Every primitive call, with its final result and the bytes it read. */
    ghost var history: seq<Transaction>
    /** Non-positive results in a row, as counted by the log guard. */
    var numLogErrors: Counter
    var log: seq<LogLine>

    /** Opens the handle: `ok` holds exactly when every setup step succeeds;
      * otherwise the failing step is logged. */
    constructor (setup: Setup, usePec: bool, verbose: bool, bus: nat -> Reply)
      ensures ok == FailedStep(setup, usePec).None?
      ensures this.verbose == verbose && this.bus == bus
      ensures calls == [] && history == [] && numLogErrors == 0
      ensures log == match FailedStep(setup, usePec)
                     case None => []
                     case Some(step) => [SetupError(step)]
    {
      var failed: Option<SetupStep> := None;
      if setup.openFd < 0 {
        failed := Some(OpenBus);
      } else if setup.funcsRes < 0 {
        failed := Some(QueryFuncs);
      } else if !(SmbusByteData in setup.funcs && SmbusI2cBlock in setup.funcs && SmbusPec in setup.funcs) {
        failed := Some(CheckFuncs);
      } else if setup.slaveRes < 0 {
        failed := Some(SelectSlave);
      } else if usePec && setup.pecRes < 0 {
        failed := Some(EnablePec);
      }
      ok := failed.None?;
      this.verbose := verbose;
      this.bus := bus;
      calls := [];
      history := [];
      numLogErrors := 0;
      log := if failed.None? then [] else [SetupError(failed.value)];
    }

    /** The result attempt `k` would give for `req`. */
    function Status(req: Request): nat -> int
    {
      (k: nat) => AttemptResult(req, bus(k))
    }

    /** The effect of one primitive call: the retry loop's attempts go on the
      * bus, the last attempt's result and bytes are returned, the call is
      * recorded, and the log guard steps. */
    twostate predicate Performed(req: Request, res: int, rx: seq<Byte>)
      reads this
    {
      var s := SpamGuard(old(numLogErrors), res);
      && Retried(req, res, rx)
      && history == old(history) + [Transaction(req, res, rx)]
      && numLogErrors == s.counter
      && log == old(log) + TransferLog(s, req, res, verbose)
    }

    /** The result and bytes of the last attempt the retry loop makes. */
    twostate predicate Retried(req: Request, res: int, rx: seq<Byte>)
      reads this
    {
      var k := old(|calls|);
      var n := Tries(Status(req), k, RetryCount);
      var last := bus(k + n - 1);
      && calls == old(calls) + Repeat(req, n)
      && res == AttemptResult(req, last)
      && rx == Fit(last.data, ReadLength(req))
    }

    /** The retry loop shared by every primitive: up to three attempts,
      * stopping at the first that does not fail. */
    method Retry(req: Request) returns (res: int, rx: seq<Byte>)
      modifies this`calls
      ensures Retried(req, res, rx)
    {
      var k := |calls|;
      ghost var st := Status(req);
      res := -1;
      rx := [];
      var rtr := 0;
      while rtr < RetryCount && res < 0
        invariant 0 <= rtr <= RetryCount && |calls| == k + rtr
        invariant calls == old(calls) + Repeat(req, rtr)
        invariant forall j :: k <= j < k + rtr - 1 ==> st(j) < 0
        invariant rtr == 0 ==> res == -1
        invariant rtr > 0 ==> res == st(k + rtr - 1) && rx == Fit(bus(k + rtr - 1).data, ReadLength(req))
      {
        var reply := bus(k + rtr);
        calls := calls + [req];
        res := AttemptResult(req, reply);
        rx := Fit(reply.data, ReadLength(req));
        rtr := rtr + 1;
      }
      TriesUnique(st, k, RetryCount, rtr);
    }

    /** One primitive call: the retry loop, then logTransfer. */
    method Transfer(req: Request) returns (res: int, rx: seq<Byte>)
      modifies this
      ensures Performed(req, res, rx)
    {
      res, rx := Retry(req);
      history := history + [Transaction(req, res, rx)];
      LogTransfer(req, res);
    }

    /** isSpamingToLog: resets on a positive result, logs the muting notice
      * when the counter stands at the threshold, counts up to the type's
      * maximum, and mutes once the count passes the threshold. */
    method IsSpamingToLog(res: int) returns (mute: bool)
      modifies this`numLogErrors, this`log
      ensures var s := SpamGuard(old(numLogErrors), res);
        numLogErrors == s.counter && mute == s.mute &&
        log == old(log) + (if s.notice then [SpamNotice(res)] else [])
    {
      if res > 0 {
        numLogErrors := 0;
        return false;
      }
      if numLogErrors == MaxLogErrors {
        log := log + [SpamNotice(res)];
      }
      if numLogErrors < CounterMax {
        numLogErrors := numLogErrors + 1;
      }
      mute := numLogErrors > MaxLogErrors;
    }

    method LogTransfer(req: Request, res: int)
      modifies this`numLogErrors, this`log
      ensures var s := SpamGuard(old(numLogErrors), res);
        numLogErrors == s.counter && log == old(log) + TransferLog(s, req, res, verbose)
    {
      var mute := IsSpamingToLog(res);
      if mute {
        return;
      }
      if res < 0 {
        log := log + [TransferError(req, res)];
      } else if verbose {
        log := log + [TransferDebug(req, res)];
      }
    }

    method ReadByte() returns (res: int)
      modifies this
      ensures Performed(Request.ReadByte, res, []) && res < 256
      ensures history == old(history) + [Transaction(Request.ReadByte, res, [])]
    {
      var rx;
      res, rx := Transfer(Request.ReadByte);
    }

    method WriteByte(value: Byte) returns (res: int)
      modifies this
      ensures Performed(Request.WriteByte(value), res, [])
      ensures history == old(history) + [Transaction(Request.WriteByte(value), res, [])]
    {
      var rx;
      res, rx := Transfer(Request.WriteByte(value));
    }

    method ReadByteData(cmd: Byte) returns (res: int)
      modifies this
      ensures Performed(Request.ReadByteData(cmd), res, []) && res < 256
      ensures history == old(history) + [Transaction(Request.ReadByteData(cmd), res, [])]
    {
      var rx;
      res, rx := Transfer(Request.ReadByteData(cmd));
    }

    method WriteByteData(cmd: Byte, value: Byte) returns (res: int)
      modifies this
      ensures Performed(Request.WriteByteData(cmd, value), res, [])
      ensures history == old(history) + [Transaction(Request.WriteByteData(cmd, value), res, [])]
    {
      var rx;
      res, rx := Transfer(Request.WriteByteData(cmd, value));
    }

    method ReadWordData(cmd: Byte) returns (res: int)
      modifies this
      ensures Performed(Request.ReadWordData(cmd), res, []) && res < 0x1_0000
      ensures history == old(history) + [Transaction(Request.ReadWordData(cmd), res, [])]
    {
      var rx;
      res, rx := Transfer(Request.ReadWordData(cmd));
    }

    method WriteWordData(cmd: Byte, word: Word) returns (res: int)
      modifies this
      ensures Performed(Request.WriteWordData(cmd, word), res, [])
      ensures history == old(history) + [Transaction(Request.WriteWordData(cmd, word), res, [])]
    {
      var rx;
      res, rx := Transfer(Request.WriteWordData(cmd, word));
    }

    method ReadI2cBlockData(cmd: Byte, length: Byte) returns (res: int, values: seq<Byte>)
      modifies this
      ensures Performed(ReadBlockData(cmd, length), res, values) && |values| == length
      ensures history == old(history) + [Transaction(ReadBlockData(cmd, length), res, values)]
    {
      res, values := Transfer(ReadBlockData(cmd, length));
    }

    /** A single read message of `length` bytes. */
    method ReadI2cBlob(length: Byte) returns (res: int, values: seq<Byte>)
      modifies this
      ensures Performed(RdWr([ReadMsg(length)]), res, values) && |values| == length
      ensures history == old(history) + [Transaction(RdWr([ReadMsg(length)]), res, values)]
    {
      ReadLengthOfOne(ReadMsg(length));
      res, values := Transfer(RdWr([ReadMsg(length)]));
    }

    /** The command byte in a write message, then a read message. */
    method ReadI2cBlobCmd(cmd: Byte, length: Byte) returns (res: int, values: seq<Byte>)
      modifies this
      ensures Performed(RdWr([WriteMsg([cmd]), ReadMsg(length)]), res, values) && |values| == length
      ensures history == old(history) + [Transaction(RdWr([WriteMsg([cmd]), ReadMsg(length)]), res, values)]
    {
      ReadLengthOfTwo(WriteMsg([cmd]), ReadMsg(length));
      res, values := Transfer(RdWr([WriteMsg([cmd]), ReadMsg(length)]));
    }

    /** The first `length` bytes of the buffer in one write message. */
    method WriteI2cBlob(length: Byte, values: seq<Byte>) returns (res: int)
      requires length <= |values|
      modifies this
      ensures Performed(RdWr([WriteMsg(values[..length])]), res, [])
      ensures history == old(history) + [Transaction(RdWr([WriteMsg(values[..length])]), res, [])]
    {
      var rx;
      ReadLengthOfOne(WriteMsg(values[..length]));
      res, rx := Transfer(RdWr([WriteMsg(values[..length])]));
    }

    /** The command byte followed by `length` bytes, in one write message of
      * 1 + length bytes. */
    method WriteI2cBlobCmd(cmd: Byte, length: Byte, values: seq<Byte>) returns (res: int)
      requires length <= |values|
      modifies this
      ensures Performed(RdWr([WriteMsg([cmd] + values[..length])]), res, [])
      ensures history == old(history) + [Transaction(RdWr([WriteMsg([cmd] + values[..length])]), res, [])]
    {
      var rx;
      ReadLengthOfOne(WriteMsg([cmd] + values[..length]));
      res, rx := Transfer(RdWr([WriteMsg([cmd] + values[..length])]));
    }

    /** A write message of `txLen` bytes, then a read message of `rxLen`. */
    method I2cTransfer(txLen: Byte, tx: seq<Byte>, rxLen: Byte) returns (res: int, rx: seq<Byte>)
      requires txLen <= |tx|
      modifies this
      ensures Performed(RdWr([WriteMsg(tx[..txLen]), ReadMsg(rxLen)]), res, rx) && |rx| == rxLen
      ensures history == old(history) + [Transaction(RdWr([WriteMsg(tx[..txLen]), ReadMsg(rxLen)]), res, rx)]
    {
      ReadLengthOfTwo(WriteMsg(tx[..txLen]), ReadMsg(rxLen));
      res, rx := Transfer(RdWr([WriteMsg(tx[..txLen]), ReadMsg(rxLen)]));
    }
  }
}
