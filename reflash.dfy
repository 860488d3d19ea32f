// The MCU reflasher (mcu/reflash.cpp): the shred bit strings that identify
// a backplane, the definition lookup keyed by shred patterns, the scan over
// the MCU addresses, and updateMCU, which brings one MCU to the firmware its
// definition names.
module Reflash {
  import opened Wrappers
  import opened McuApi
  import opened Flashing
  import McuDriver

  /** A shred is read from 8 GPIO pins. */
  const NumberOfPins: nat := 8

  /** The addresses probed, without `force`, when a definition names none. */
  const ProbeAddresses: seq<int> := [0x2a, 0x2b, 0x2c]

  // Shreds.

  /** Pin `pin` of a shred value: bit 7 - pin, the first pin being the
    * leftmost bit. */
  predicate PinSet(value: nat, pin: nat)
  {
    pin < NumberOfPins && McuDriver.Bit(value, NumberOfPins - 1 - pin)
  }

  lemma {:induction false} NoBitOfZero(i: nat)
    ensures !McuDriver.Bit(0, i)
  {
    if i > 0 {
      NoBitOfZero(i - 1);
    }
  }

  /** calcShred: the first (at most 8) characters of `bits` read as a byte,
    * character i giving bit 7 - i. Any character other than '0' and '1'
    * gives 0xFF at once, which is also the value of "11111111". */
  method CalcShred(bits: string) returns (value: Byte)
    ensures (forall i :: 0 <= i < Min(|bits|, NumberOfPins) ==> bits[i] in "01") ==>
      forall i :: 0 <= i < NumberOfPins ==> (PinSet(value as nat, i) <==> i < |bits| && bits[i] == '1')
    ensures (exists i :: 0 <= i < Min(|bits|, NumberOfPins) && bits[i] !in "01") ==> value == 0xFF
  {
    var v: nat := 0;
    var i := 0;
    forall j | 0 <= j < NumberOfPins
      ensures !PinSet(v, j)
    {
      NoBitOfZero(NumberOfPins - 1 - j);
    }
    while i < |bits| && i < NumberOfPins
      invariant i <= NumberOfPins && i <= |bits| && v < 256
      invariant forall j :: 0 <= j < i ==> bits[j] in "01"
      invariant forall j :: 0 <= j < i ==> (PinSet(v, j) <==> bits[j] == '1')
      invariant forall j :: i <= j < NumberOfPins ==> !PinSet(v, j)
    {
      if bits[i] == '0' || bits[i] == '1' {
        if bits[i] == '1' {
          var v' := McuDriver.SetBit(v, 7 - i, true);
          McuDriver.SetBitByte(v, 7 - i, true, 8);
          assert McuDriver.Pow2(8) == 256;
          forall j | 0 <= j < NumberOfPins
            ensures PinSet(v', j) == (if j == i then true else PinSet(v, j))
          {
            McuDriver.SetBitBits(v, 7 - i, true, 7 - j);
          }
          v := v';
        }
      } else {
        return 0xFF;
      }
      i := i + 1;
    }
    value := v;
  }

  /** A byte is fixed by its 8 bits. */
  lemma {:induction false} BitsDetermineByte(x: nat, y: nat, n: nat)
    requires x < McuDriver.Pow2(n) && y < McuDriver.Pow2(n)
    requires forall i :: 0 <= i < n ==> McuDriver.Bit(x, i) == McuDriver.Bit(y, i)
    ensures x == y
    decreases n
  {
    if n > 0 {
      assert McuDriver.Bit(x, 0) == McuDriver.Bit(y, 0);
      forall i | 0 <= i < n - 1
        ensures McuDriver.Bit(x / 2, i) == McuDriver.Bit(y / 2, i)
      {
        assert McuDriver.Bit(x, i + 1) == McuDriver.Bit(y, i + 1);
      }
      BitsDetermineByte(x / 2, y / 2, n - 1);
    }
  }

  /** Every bit below `m` of 2^m - 1 is set. */
  lemma {:induction false} OnesBit(m: nat, i: nat)
    requires i < m
    ensures McuDriver.Bit(McuDriver.Pow2(m) - 1, i)
    decreases i
  {
    var p := McuDriver.Pow2(m - 1);
    assert McuDriver.Pow2(m) - 1 == 2 * (p - 1) + 1;
    assert (McuDriver.Pow2(m) - 1) % 2 == 1 && (McuDriver.Pow2(m) - 1) / 2 == p - 1;
    if i > 0 {
      OnesBit(m - 1, i - 1);
    }
  }

  /** A shred with all 8 pins set is 0xFF: "11111111" and a malformed shred
    * give the same value. */
  lemma AllPinsSetIsFF(value: nat)
    requires value < 256
    requires forall i :: 0 <= i < NumberOfPins ==> PinSet(value, i)
    ensures value == 0xFF
  {
    assert McuDriver.Pow2(8) == 256;
    forall i | 0 <= i < 8
      ensures McuDriver.Bit(value, i) == McuDriver.Bit(0xFF, i)
    {
      assert PinSet(value, 7 - i);
      OnesBit(8, i);
    }
    BitsDetermineByte(value, 0xFF, 8);
  }

  /** toString: one character per pin value, '0' or '1' after its lowest bit
    * (`bit & 1`, which for the two's complement of a negative value is its
    * remainder modulo 2). */
  method ToBitString(bits: seq<int>) returns (s: string)
    ensures |s| == |bits|
    ensures forall i :: 0 <= i < |bits| ==> s[i] == (if bits[i] % 2 == 1 then '1' else '0')
  {
    s := "";
    for i := 0 to |bits|
      invariant |s| == i
      invariant forall j :: 0 <= j < i ==> s[j] == (if bits[j] % 2 == 1 then '1' else '0')
    {
      s := s + [if bits[i] % 2 == 1 then '1' else '0'];
    }
  }

  /** compareShred: a key matches a shred of its length whose characters it
    * equals except where it holds the wildcard '*'. */
  function ShredMatches(key: string, bits: string): (r: bool)
    ensures r <==> |key| == |bits| && forall i :: 0 <= i < |key| ==> key[i] == '*' || key[i] == bits[i]
  {
    |key| == |bits| && MatchesFrom(key, bits, 0)
  }

  function MatchesFrom(key: string, bits: string, i: nat): (r: bool)
    requires |key| == |bits| && i <= |key|
    ensures r <==> forall j :: i <= j < |key| ==> key[j] == '*' || key[j] == bits[j]
    decreases |key| - i
  {
    i == |key| || ((key[i] == '*' || key[i] == bits[i]) && MatchesFrom(key, bits, i + 1))
  }

  /** A key without wildcards matches only itself; the all-wildcard key of
    * a length matches every shred of that length. */
  lemma ShredMatchesExtremes(key: string, bits: string)
    ensures (forall i :: 0 <= i < |key| ==> key[i] != '*') ==> (ShredMatches(key, bits) <==> key == bits)
    ensures (forall i :: 0 <= i < |key| ==> key[i] == '*') ==> (ShredMatches(key, bits) <==> |key| == |bits|)
  {
    if (forall i :: 0 <= i < |key| ==> key[i] != '*') && ShredMatches(key, bits) {
      assert key == bits;
    }
  }

  // Definitions.

  /** A definition: the firmware image (empty when there is none), the
    * required version, and the MCU addresses. */
  datatype Definition = Definition(firmware: string, version: string, mcus: seq<int>)

  const EmptyDefinition: Definition := Definition("", "", [])

  /** Strict lexicographic order of keys, as std::map orders them. */
  predicate KeyLess(a: string, b: string)
  {
    if a == [] then b != []
    else if b == [] then false
    else a[0] < b[0] || (a[0] == b[0] && KeyLess(a[1..], b[1..]))
  }

  /** The definitions in the map's order: keys strictly ascending. */
  predicate InKeyOrder(defs: seq<(string, Definition)>)
  {
    forall i, j :: 0 <= i < j < |defs| ==> KeyLess(defs[i].0, defs[j].0)
  }

  /** findDefinition: the definition of the first key, in key order, that
    * matches the shred, or the empty definition. */
  function FindDefinition(defs: seq<(string, Definition)>, shred: string): (d: Definition)
    ensures (forall i :: 0 <= i < |defs| ==> !ShredMatches(defs[i].0, shred)) ==> d == EmptyDefinition
    ensures (exists i :: 0 <= i < |defs| && ShredMatches(defs[i].0, shred)) ==>
      exists i :: 0 <= i < |defs| && ShredMatches(defs[i].0, shred) && d == defs[i].1 &&
        forall j :: 0 <= j < i ==> !ShredMatches(defs[j].0, shred)
    decreases |defs|
  {
    if defs == [] then EmptyDefinition
    else if ShredMatches(defs[0].0, shred) then defs[0].1
    else
      var d := FindDefinition(defs[1..], shred);
      assert forall i :: 1 <= i < |defs| ==> defs[i] == defs[1..][i - 1];
      d
  }

  /** In a map in key order, the definition found belongs to the least key
    * that matches. */
  lemma FindDefinitionLeastKey(defs: seq<(string, Definition)>, shred: string, j: nat)
    requires InKeyOrder(defs)
    requires j < |defs| && ShredMatches(defs[j].0, shred)
    ensures exists i :: 0 <= i < |defs| && FindDefinition(defs, shred) == defs[i].1 &&
                        ShredMatches(defs[i].0, shred) && (i == j || KeyLess(defs[i].0, defs[j].0))
  {
    var i :| 0 <= i < |defs| && ShredMatches(defs[i].0, shred) && FindDefinition(defs, shred) == defs[i].1 &&
      forall k :: 0 <= k < i ==> !ShredMatches(defs[k].0, shred);
    assert i <= j;
  }

  // updateMCU.

  /** The firmware file of a definition: no path, a file that does not open,
    * or its contents. */
  datatype FirmwareFile = NoPath | Unreadable | Contents(data: seq<Byte>)

  /** How updateMCU ends. */
  datatype Outcome =
    /** the driver did not open; reported only when the address was forced */
    | Absent(reported: bool)
    /** already running the required version */
    | UpToDate
    /** the definition names no firmware */
    | NothingToFlash
    /** an image smaller than its header or larger than 128 KiB */
    | BadSize
    /** the file, a write or a reboot failed */
    | FlashFailed
    /** no ping answered after the reboot */
    | NotBack
    /** flashed; `requeried` when the new driver opened */
    | Flashed(requeried: bool)

  /** The calls updateMCU makes and how it ends, the first call getting
    * answer `k`, with at most `attempts` pings (updateMCU makes 20). */
  function ReflashRun(ans: seq<Answer>, k: nat, force: bool, fw: FirmwareFile, version: string, attempts: nat)
    : (run: (seq<Call>, Outcome))
  {
    if At(ans, k).fails then ([Open], Absent(force))
    else
      var pre := [Open, GetBoardType, GetFwVersion];
      if version != "" && version == At(ans, k + 2).text then (pre, UpToDate)
      else
        match fw
        case NoPath => (pre, NothingToFlash)
        case Unreadable => (pre, FlashFailed)
        case Contents(image) =>
          if !SizeAccepted(|image|) then (pre, BadSize)
          else
            var rest := FlashRun(ans, k + 3, image, attempts);
            (pre + rest.0, rest.1)
  }

  /** From the first write on: a failed write is followed by a reboot
    * whatever else, then the failure is reported. */
  function FlashRun(ans: seq<Answer>, k: nat, image: seq<Byte>, attempts: nat): (run: (seq<Call>, Outcome))
  {
    var w := Writes(ans, k, image, 0);
    if w.1 then (w.0 + [Reboot], FlashFailed)
    else
      var rest := RestartRun(ans, k + |w.0|, attempts);
      (w.0 + rest.0, rest.1)
  }

  /** The reboot, the pings, and a new driver only once a ping answered. */
  function RestartRun(ans: seq<Answer>, k: nat, attempts: nat): (run: (seq<Call>, Outcome))
  {
    if At(ans, k).fails then ([Reboot], FlashFailed)
    else
      var p := Pings(ans, k + 1, attempts);
      if !p.1 then ([Reboot] + p.0, NotBack)
      else if At(ans, k + 1 + |p.0|).fails then ([Reboot] + p.0 + [Open], Flashed(false))
      else ([Reboot] + p.0 + [Open, GetBoardType, GetFwVersion], Flashed(true))
  }

  /** The offset loop: chunks of min(128, remaining) bytes at offsets 0,
    * 128, 256, ..., ending at the first failed write. */
  method WriteChunks(mcu: Mcu, image: seq<Byte>) returns (failed: bool)
    modifies mcu`trace
    ensures var w := Writes(mcu.answers, |old(mcu.trace)|, image, 0);
      mcu.trace == old(mcu.trace) + w.0 && failed == w.1
  {
    ghost var t0 := mcu.trace;
    ghost var ans := mcu.answers;
    ghost var whole := Writes(ans, |t0|, image, 0);
    ghost var done: seq<Call> := [];
    assert done + whole.0 == whole.0;
    var offset := 0;
    failed := false;
    while offset < |image|
      invariant mcu.trace == t0 + done && mcu.answers == ans
      invariant whole == (done + Writes(ans, |t0| + |done|, image, offset).0, Writes(ans, |t0| + |done|, image, offset).1)
      decreases |image| - offset
    {
      var chunk := image[offset..Min(offset + ChunkSize, |image|)];
      WriteOneChunk(ans, |t0| + |done|, image, offset, done, whole);
      assert chunk == Chunk(image, offset);
      var r := mcu.WriteFlash(chunk);
      done := done + [WriteFlash(chunk)];
      if r.Err? {
        return true;
      }
      offset := offset + ChunkSize;
    }
  }

  /** The reboot, the ping loop, and the new driver once the MCU is back. */
  method Restart(mcu: Mcu, attempts: nat) returns (o: Outcome)
    modifies mcu`trace
    ensures var run := RestartRun(mcu.answers, |old(mcu.trace)|, attempts);
      mcu.trace == old(mcu.trace) + run.0 && o == run.1
  {
    var rebooted := mcu.Reboot();
    if rebooted.Err? {
      return FlashFailed;
    }
    var done := PingUntilBack(mcu, attempts);
    if !done {
      return NotBack;
    }
    var factory := mcu.Open();
    if factory.Err? {
      return Flashed(false);
    }
    var devType := mcu.GetBoardType();
    var fwVer := mcu.GetFwVersion();
    o := Flashed(true);
  }

  /** The writes and what follows them. */
  method Flash(mcu: Mcu, image: seq<Byte>, attempts: nat) returns (o: Outcome)
    modifies mcu`trace
    ensures var run := FlashRun(mcu.answers, |old(mcu.trace)|, image, attempts);
      mcu.trace == old(mcu.trace) + run.0 && o == run.1
  {
    ghost var t0 := mcu.trace;
    ghost var w := Writes(mcu.answers, |t0|, image, 0);
    var failed := WriteChunks(mcu, image);
    if failed {
      var _ := mcu.Reboot();
      return FlashFailed;
    }
    ghost var t1 := mcu.trace;
    o := Restart(mcu, attempts);
    assert mcu.trace == t0 + (w.0 + mcu.trace[|t1|..]);
  }

  /** updateMCU, for the MCU behind `mcu`. */
  method UpdateMcu(mcu: Mcu, force: bool, fw: FirmwareFile, version: string) returns (o: Outcome)
    modifies mcu`trace
    ensures var run := ReflashRun(mcu.answers, |old(mcu.trace)|, force, fw, version, PingAttempts);
      mcu.trace == old(mcu.trace) + run.0 && o == run.1
  {
    ghost var t0 := mcu.trace;
    ghost var k := |t0|;
    ghost var pre := [Open, GetBoardType, GetFwVersion];
    var factory := mcu.Open();
    if factory.Err? {
      return Absent(force);
    }
    var devType := mcu.GetBoardType();
    var fwVer := mcu.GetFwVersion();
    assert mcu.trace == t0 + pre && fwVer == At(mcu.answers, k + 2).text;
    if version != "" && version == fwVer {
      return UpToDate;
    }
    match fw
    case NoPath =>
      o := NothingToFlash;
    case Unreadable =>
      o := FlashFailed;
    case Contents(image) =>
      if !SizeAccepted(|image|) {
        return BadSize;
      }
      o := Flash(mcu, image, PingAttempts);
      ghost var f := FlashRun(mcu.answers, k + 3, image, PingAttempts);
      assert mcu.trace == t0 + (pre + f.0) && o == f.1;
      ReflashRunContents(mcu.answers, k, force, image, version, PingAttempts);
  }

  /** An identified MCU that does not run the version is flashed with an
    * image of an accepted size. */
  lemma ReflashRunContents(ans: seq<Answer>, k: nat, force: bool, image: seq<Byte>, version: string, attempts: nat)
    requires !At(ans, k).fails && !(version != "" && version == At(ans, k + 2).text) && SizeAccepted(|image|)
    ensures var f := FlashRun(ans, k + 3, image, attempts);
      ReflashRun(ans, k, force, Contents(image), version, attempts) == ([Open, GetBoardType, GetFwVersion] + f.0, f.1)
  {
  }

  /** An MCU that does not open is reported exactly when its address was
    * forced, and nothing else is tried on it. */
  lemma ReflashAbsent(ans: seq<Answer>, k: nat, force: bool, fw: FirmwareFile, version: string, attempts: nat)
    ensures var run := ReflashRun(ans, k, force, fw, version, attempts);
      run.1.Absent? <==> At(ans, k).fails
    ensures var run := ReflashRun(ans, k, force, fw, version, attempts);
      run.1.Absent? ==> run.0 == [Open] && (run.1.reported <==> force)
  {
  }

  /** Nothing is written unless the MCU opened, does not run the required
    * version already, and the definition's image opened with an accepted
    * size. */
  lemma ReflashWritesOnlyWhenNeeded(ans: seq<Answer>, k: nat, force: bool, fw: FirmwareFile, version: string,
                                    attempts: nat, j: nat)
    requires var run := ReflashRun(ans, k, force, fw, version, attempts);
      j < |run.0| && run.0[j].WriteFlash?
    ensures !At(ans, k).fails && !(version != "" && version == At(ans, k + 2).text)
    ensures fw.Contents? && SizeAccepted(|fw.data|) && j >= 3
  {
  }

  /** The reboot phase ends with a new driver exactly when a ping answered;
    * without one, all `attempts` pings went unanswered. */
  lemma {:induction false} RestartRequeriesOnlyIfBack(ans: seq<Answer>, k: nat, attempts: nat)
    ensures var run := RestartRun(ans, k, attempts);
      NoFlashing(run.0) && run.0[0] == Reboot
    ensures var run := RestartRun(ans, k, attempts);
      (exists j :: 0 <= j < |run.0| && run.0[j] == Open) <==> !At(ans, k).fails && Pings(ans, k + 1, attempts).1
    ensures var run := RestartRun(ans, k, attempts);
      run.1 == NotBack ==> |run.0| == attempts + 1 && Failed(ans, k + 1, attempts)
  {
    PingsShape(ans, k + 1, attempts);
    var run := RestartRun(ans, k, attempts);
    var p := Pings(ans, k + 1, attempts);
    if !At(ans, k).fails && !p.1 {
      assert run.0 == [Reboot] + p.0;
      forall j | 0 <= j < |run.0|
        ensures run.0[j] != Open
      {
        if j > 0 {
          assert run.0[j] == p.0[j - 1];
        }
      }
    }
    if !At(ans, k).fails && p.1 {
      assert run.0[1 + |p.0|] == Open;
    }
  }

  /** A failed write is always followed by the recovery reboot and nothing
    * else, after a prefix of the image was written. */
  lemma FlashRunWriteFailure(ans: seq<Answer>, k: nat, image: seq<Byte>, attempts: nat)
    requires Writes(ans, k, image, 0).1
    ensures var run := FlashRun(ans, k, image, attempts);
      run.1 == FlashFailed && |run.0| >= 2 && run.0[|run.0| - 1] == Reboot && run.0[|run.0| - 2].WriteFlash?
    ensures var run := FlashRun(ans, k, image, attempts);
      |Written(run.0)| <= |image| && Written(run.0) == image[..|Written(run.0)|]
  {
    var w := Writes(ans, k, image, 0).0;
    WritesShape(ans, k, image, 0);
    WritesStopAtFailure(ans, k, image, 0);
    WrittenAppend(w, [Reboot]);
    WrittenNoWrites([Reboot]);
    assert w + [] == w;
  }

  /** A flashed MCU got exactly its image, in order, and the flash is never
    * erased. */
  lemma ReflashFlashed(ans: seq<Answer>, k: nat, force: bool, fw: FirmwareFile, version: string, attempts: nat)
    requires ReflashRun(ans, k, force, fw, version, attempts).1.Flashed?
    ensures fw.Contents? && Written(ReflashRun(ans, k, force, fw, version, attempts).0) == fw.data
  {
    var pre := [Open, GetBoardType, GetFwVersion];
    ReflashRunFlashes(ans, k, force, fw, version, attempts);
    var f := FlashRun(ans, k + 3, fw.data, attempts).0;
    FlashedWritesImage(ans, k + 3, fw.data, attempts);
    WrittenNoWrites(pre);
    WrittenAppend(pre, f);
    assert Written(pre + f) == [] + fw.data;
  }

  /** A flash run that ends flashed wrote exactly the image. */
  lemma FlashedWritesImage(ans: seq<Answer>, k: nat, image: seq<Byte>, attempts: nat)
    requires FlashRun(ans, k, image, attempts).1.Flashed?
    ensures Written(FlashRun(ans, k, image, attempts).0) == image
  {
    FlashRunParts(ans, k, image, attempts);
    var w := Writes(ans, k, image, 0).0;
    var rest := RestartRun(ans, k + |w|, attempts).0;
    WritesCover(ans, k, image, 0);
    assert image[0..] == image;
    RestartWritesNothing(ans, k + |w|, attempts);
    WrittenAppend(w, rest);
    assert Written(w + rest) == image + [];
  }

  /** A run that got as far as flashing: the MCU opened, did not run the
    * version, and the image has an accepted size. */
  lemma ReflashRunFlashes(ans: seq<Answer>, k: nat, force: bool, fw: FirmwareFile, version: string, attempts: nat)
    requires ReflashRun(ans, k, force, fw, version, attempts).1.Flashed?
    ensures fw.Contents? && SizeAccepted(|fw.data|)
    ensures var f := FlashRun(ans, k + 3, fw.data, attempts);
      ReflashRun(ans, k, force, fw, version, attempts) == ([Open, GetBoardType, GetFwVersion] + f.0, f.1) &&
      f.1.Flashed?
  {
  }

  /** A flash run that ended flashed wrote without failure, then restarted. */
  lemma FlashRunParts(ans: seq<Answer>, k: nat, image: seq<Byte>, attempts: nat)
    requires FlashRun(ans, k, image, attempts).1.Flashed?
    ensures var w := Writes(ans, k, image, 0);
      var r := RestartRun(ans, k + |w.0|, attempts);
      !w.1 && FlashRun(ans, k, image, attempts) == (w.0 + r.0, r.1)
  {
  }

  /** The reboot phase writes nothing to the flash. */
  lemma RestartWritesNothing(ans: seq<Answer>, k: nat, attempts: nat)
    ensures Written(RestartRun(ans, k, attempts).0) == []
  {
    RestartRequeriesOnlyIfBack(ans, k, attempts);
    WrittenNoWrites(RestartRun(ans, k, attempts).0);
  }

  /** updateMCU never erases the flash. */
  lemma ReflashNeverErases(ans: seq<Answer>, k: nat, force: bool, fw: FirmwareFile, version: string, attempts: nat)
    ensures var run := ReflashRun(ans, k, force, fw, version, attempts);
      forall j :: 0 <= j < |run.0| ==> !run.0[j].EraseFlash?
  {
    var run := ReflashRun(ans, k, force, fw, version, attempts).0;
    var pre := [Open, GetBoardType, GetFwVersion];
    if fw.Contents? && !At(ans, k).fails && !(version != "" && version == At(ans, k + 2).text) && SizeAccepted(|fw.data|) {
      var f := FlashRun(ans, k + 3, fw.data, attempts).0;
      assert run == pre + f;
      FlashNeverErases(ans, k + 3, fw.data, attempts);
      forall j | 0 <= j < |run|
        ensures !run[j].EraseFlash?
      {
        if j >= 3 {
          assert run[j] == f[j - 3];
        }
      }
    }
  }

  /** The write phase and what follows it never erase the flash. */
  lemma FlashNeverErases(ans: seq<Answer>, k: nat, image: seq<Byte>, attempts: nat)
    ensures var f := FlashRun(ans, k, image, attempts).0;
      forall j :: 0 <= j < |f| ==> !f[j].EraseFlash?
  {
    var w := Writes(ans, k, image, 0);
    WritesOnlyWrite(ans, k, image);
    FlashRunSplit(ans, k, image, attempts);
    if w.1 {
      NoEraseAfterWrites(w.0, [Reboot]);
    } else {
      RestartRequeriesOnlyIfBack(ans, k + |w.0|, attempts);
      NoEraseAfterWrites(w.0, RestartRun(ans, k + |w.0|, attempts).0);
    }
  }

  /** Writes followed by calls that do not touch the flash erase nothing. */
  lemma NoEraseAfterWrites(a: seq<Call>, b: seq<Call>)
    requires AllWrites(a) && NoFlashing(b)
    ensures forall j :: 0 <= j < |a + b| ==> !(a + b)[j].EraseFlash?
  {
    forall j | 0 <= j < |a + b|
      ensures !(a + b)[j].EraseFlash?
    {
      if j < |a| {
        assert (a + b)[j] == a[j];
      } else {
        assert (a + b)[j] == b[j - |a|];
      }
    }
  }

  /** The write phase makes only writes. */
  lemma WritesOnlyWrite(ans: seq<Answer>, k: nat, image: seq<Byte>)
    ensures AllWrites(Writes(ans, k, image, 0).0)
  {
    WritesShape(ans, k, image, 0);
  }

  /** A flash run is its writes followed by the recovery reboot after a
    * failed write, or by the restart. */
  lemma FlashRunSplit(ans: seq<Answer>, k: nat, image: seq<Byte>, attempts: nat)
    ensures var w := Writes(ans, k, image, 0);
      FlashRun(ans, k, image, attempts).0 ==
        w.0 + (if w.1 then [Reboot] else RestartRun(ans, k + |w.0|, attempts).0)
  {
  }

  // scan.

  /** A shred found on a GPIO chip and the bus its I2C devices are on. */
  datatype FoundShred = FoundShred(shred: string, chip: string, bus: int)

  /** One updateMCU call of a scan. */
  datatype Attempt = Attempt(bus: int, addr: int, force: bool, firmware: string, version: string)

  /** The updateMCU calls for one shred with definition `d`: its addresses,
    * forced, or the three probe addresses, not forced, when it names none. */
  function Attempts(d: Definition, bus: int): seq<Attempt>
  {
    if d.mcus != [] then seq(|d.mcus|, i requires 0 <= i < |d.mcus| => Attempt(bus, d.mcus[i], true, d.firmware, d.version))
    else seq(|ProbeAddresses|, i requires 0 <= i < |ProbeAddresses| => Attempt(bus, ProbeAddresses[i], false, d.firmware, d.version))
  }

  /** All the updateMCU calls of a scan, shred by shred. */
  function ScanPlan(defs: seq<(string, Definition)>, shreds: seq<FoundShred>): seq<Attempt>
    decreases |shreds|
  {
    if shreds == [] then []
    else Attempts(FindDefinition(defs, shreds[0].shred), shreds[0].bus) + ScanPlan(defs, shreds[1..])
  }

  /** The two address loops for one shred. */
  method ShredAttempts(d: Definition, bus: int) returns (plan: seq<Attempt>)
    ensures plan == Attempts(d, bus)
  {
    plan := [];
    for i := 0 to |d.mcus|
      invariant plan == seq(i, j requires 0 <= j < i => Attempt(bus, d.mcus[j], true, d.firmware, d.version))
    {
      plan := plan + [Attempt(bus, d.mcus[i], true, d.firmware, d.version)];
    }
    if d.mcus == [] {
      for i := 0 to |ProbeAddresses|
        invariant plan == seq(i, j requires 0 <= j < i => Attempt(bus, ProbeAddresses[j], false, d.firmware, d.version))
      {
        plan := plan + [Attempt(bus, ProbeAddresses[i], false, d.firmware, d.version)];
      }
    }
  }

  /** scan's loop over the shreds found: the updateMCU calls it makes, in
    * order. */
  method Scan(defs: seq<(string, Definition)>, shreds: seq<FoundShred>) returns (plan: seq<Attempt>)
    ensures plan == ScanPlan(defs, shreds)
  {
    plan := [];
    var n := 0;
    while n < |shreds|
      invariant n <= |shreds|
      invariant plan + ScanPlan(defs, shreds[n..]) == ScanPlan(defs, shreds)
    {
      assert shreds[n..][1..] == shreds[n + 1..];
      var d := FindDefinition(defs, shreds[n].shred);
      var more := ShredAttempts(d, shreds[n].bus);
      assert ScanPlan(defs, shreds[n..]) == more + ScanPlan(defs, shreds[n + 1..]);
      assert plan + more + ScanPlan(defs, shreds[n + 1..]) == plan + (more + ScanPlan(defs, shreds[n + 1..]));
      plan := plan + more;
      n := n + 1;
    }
    assert shreds[n..] == [];
    assert plan + [] == plan;
  }

  /** Every forced attempt goes to an address its shred's definition names;
    * every other one to a probe address, for a definition that names none.
    * Each attempt uses its shred's definition's firmware and version. */
  lemma {:induction false} ScanAddressPolicy(defs: seq<(string, Definition)>, shreds: seq<FoundShred>)
    ensures forall a :: a in ScanPlan(defs, shreds) ==>
      exists s :: s in shreds && a.bus == s.bus &&
        var d := FindDefinition(defs, s.shred);
        a.firmware == d.firmware && a.version == d.version &&
        (if a.force then a.addr in d.mcus else d.mcus == [] && a.addr in ProbeAddresses)
    decreases |shreds|
  {
    if shreds != [] {
      ScanAddressPolicy(defs, shreds[1..]);
      forall a | a in ScanPlan(defs, shreds)
        ensures exists s :: s in shreds && a.bus == s.bus &&
                            var d := FindDefinition(defs, s.shred);
                            a.firmware == d.firmware && a.version == d.version &&
                            (if a.force then a.addr in d.mcus else d.mcus == [] && a.addr in ProbeAddresses)
      {
        if a in Attempts(FindDefinition(defs, shreds[0].shred), shreds[0].bus) {
          assert shreds[0] in shreds;
        } else {
          assert a in ScanPlan(defs, shreds[1..]);
          var s :| s in shreds[1..] && a.bus == s.bus &&
            var d := FindDefinition(defs, s.shred);
            a.firmware == d.firmware && a.version == d.version &&
            (if a.force then a.addr in d.mcus else d.mcus == [] && a.addr in ProbeAddresses);
          assert s in shreds;
        }
      }
    }
  }
}
