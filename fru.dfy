// The NVMe drive serial number lookup of the backplane controller
// (storage/backplane_control.cpp): the drive's VPD EEPROM at address 0x53 is
// read as an IPMI FRU (IPMI Platform Management FRU Information Storage
// Definition v1.0: section 8, Common Header; section 11, Product Info Area;
// section 13, Type/Length byte), and, when that yields nothing, in the older
// V1A layout.
module BackplaneFru {
  import opened Wrappers
  import I2c
  import McuDriver
  import Common

  /** The drive's VPD address. */
  const NvmeVpdAddr: nat := 0x53
  /** FRU areas are measured in 8-byte blocks. */
  const FruBlockSize: nat := 8
  const FruHeaderSize: nat := 8
  /** The header byte holding the product area's offset, in blocks. */
  const FruAreaProductByte: nat := 4
  /** The serial number is the fifth field of the product area. */
  const FruProductSnFieldNumber: nat := 5
  /** The type/length code of 8-bit text ("language dependent"). */
  const LanguageDependent: nat := 3
  const V1aSnFieldOffset: nat := 5
  const V1aSnFieldSize: nat := 20
  /** The buffer the product area is read into. */
  const AreaBufferSize: nat := 256

  /** The sum of the bytes. */
  function Sum(s: seq<Byte>): nat
  {
    if s == [] then 0 else Sum(s[..|s| - 1]) + s[|s| - 1]
  }

  /** A valid common header: format version 1, a zero pad byte, and a zero
    * checksum over its 8 bytes (section 8 of the IPMI Platform Management
    * FRU Information Storage Definition v1.0). */
  predicate HeaderValid(block: seq<Byte>)
    requires |block| >= FruHeaderSize
  {
    block[0] == 1 && block[6] == 0 && Sum(block[..FruHeaderSize]) % 256 == 0
  }

  /** fruValidateHeader. */
  method FruValidateHeader(block: seq<Byte>) returns (ok: bool)
    requires |block| >= FruHeaderSize
    ensures ok <==> HeaderValid(block)
  {
    if block[0] != 1 {
      return false;
    }
    if block[6] != 0 {
      return false;
    }
    var sum: nat := 0;
    for jj := 0 to FruHeaderSize
      invariant sum == Sum(block[..jj])
    {
      assert block[..jj + 1][..jj] == block[..jj];
      sum := sum + block[jj];
    }
    // `(256 - sum) & 0xFF` on an unsigned sum: the remainder modulo 256.
    var check: int := (256 - sum) % 256;
    ok := check == 0;
  }

  /** fruCalculateChecksum: the byte that, added to the first `len` bytes,
    * makes their sum 0 modulo 256. */
  method FruCalculateChecksum(data: seq<Byte>, len: nat) returns (c: Byte)
    requires len <= |data|
    ensures (Sum(data[..len]) + c) % 256 == 0
    ensures c == 0 <==> Sum(data[..len]) % 256 == 0
  {
    var sum: nat := 0;
    for index := 0 to len
      invariant sum == Sum(data[..index])
    {
      assert data[..index + 1][..index] == data[..index];
      sum := sum + data[index];
    }
    c := (256 - sum) % 256;
  }

  /** The length of block read `i` of an area of `size` bytes: a full
    * SMBus block, or what is left of the area. */
  function PieceLen(size: nat, i: nat): (n: nat)
    requires I2c.BlockSize * i <= size
    ensures n <= I2c.BlockSize && I2c.BlockSize * i + n <= size
    ensures n < I2c.BlockSize ==> I2c.BlockSize * i + n == size
  {
    Min(I2c.BlockSize, size - I2c.BlockSize * i)
  }

  /** The bytes the transactions read, one after the other. */
  function Joined(ts: seq<I2c.Transaction>): seq<Byte>
  {
    if ts == [] then [] else Joined(ts[..|ts| - 1]) + ts[|ts| - 1].rx
  }

  /** Transaction i is block read i of an area of `size` bytes at
    * `offset`: at position 32 * i of the area, taken with the offset as the
    * 8-bit command, and every block but the last ends before the area does. */
  predicate PiecesRead(ts: seq<I2c.Transaction>, offset: nat, size: nat)
  {
    && (|ts| > 0 ==> I2c.BlockSize * (|ts| - 1) <= size)
    && (|ts| > 1 ==> I2c.BlockSize * (|ts| - 1) < size)
    && (forall i :: 0 <= i < |ts| ==> PieceAt(ts[i], offset, size, i))
  }

  /** Transaction `t` is block read `i` of the area. */
  predicate PieceAt(t: I2c.Transaction, offset: nat, size: nat, i: nat)
  {
    t.req.ReadBlockData? && t.req.cmd == (offset + I2c.BlockSize * i) % 256 &&
    I2c.BlockSize * i <= size && t.req.len == PieceLen(size, i) && |t.rx| == PieceLen(size, i)
  }

  /** Every transaction succeeded. */
  predicate AllSucceeded(ts: seq<I2c.Transaction>)
  {
    forall i :: 0 <= i < |ts| ==> ts[i].res >= 0
  }

  /** What reading the product area at `offset` did: block reads one after
    * the other, stopping at the first failed read or once the area is
    * covered; `ok` when the last read succeeded, and then `data` holds the
    * bytes read followed by the buffer's zero fill. */
  predicate AreaRead(ts: seq<I2c.Transaction>, offset: nat, size: nat, ok: bool, data: seq<Byte>)
    requires size <= AreaBufferSize
  {
    && 1 <= |ts| && PiecesRead(ts, offset, size) && AllSucceeded(ts[..|ts| - 1])
    && (ok <==> ts[|ts| - 1].res >= 0)
    && (ok ==> size <= I2c.BlockSize * |ts| && |Joined(ts)| == size &&
               data == Joined(ts) + McuDriver.Zeros(AreaBufferSize - size))
  }

  /** The product area read loop: block reads advancing through the area
    * until its size is covered, at least one even for an empty area. The
    * area must fit the 256-byte buffer. */
  method ReadProductArea(dev: I2c.I2cDev, offset: nat, size: nat) returns (ok: bool, data: seq<Byte>)
    requires size <= AreaBufferSize
    modifies dev
    ensures McuDriver.Extends(old(dev.history), dev.history)
    ensures AreaRead(dev.history[|old(dev.history)|..], offset, size, ok, data)
  {
    ghost var h0 := dev.history;
    ghost var ts: seq<I2c.Transaction> := [];
    data := McuDriver.Zeros(AreaBufferSize);
    var dataAddr := 0;
    var first := true;
    while first || dataAddr < size
      invariant first ==> ts == [] && dataAddr == 0 && data == McuDriver.Zeros(AreaBufferSize)
      invariant !first ==> Progress(ts, offset, size, dataAddr, data)
      invariant dev.history == h0 + ts
      decreases size - dataAddr, first
    {
      var readBytes := Min(I2c.BlockSize, size - dataAddr);
      var res, values := McuDriver.ReadBlockData(dev, (offset + dataAddr) % 256, readBytes);
      ghost var t := I2c.Transaction(I2c.ReadBlockData((offset + dataAddr) % 256, readBytes), res, values);
      if res < 0 {
        FailedPiece(ts, t, offset, size, dataAddr, data);
        assert dev.history[|h0|..] == ts + [t];
        return false, data;
      }
      NextPiece(ts, t, offset, size, dataAddr, data);
      data := data[..dataAddr] + values + data[dataAddr + readBytes..];
      ts := ts + [t];
      dataAddr := dataAddr + readBytes;
      first := false;
    }
    assert dev.history[|h0|..] == ts;
    AllPieces(ts, offset, size, dataAddr, data);
    ok := true;
  }

  /** The state of the read loop after at least one successful block read:
    * the reads so far are the first blocks of the area, all succeeded, and
    * their bytes fill the buffer up to `addr`, the rest being zero. */
  ghost predicate Progress(ts: seq<I2c.Transaction>, offset: nat, size: nat, addr: nat, data: seq<Byte>)
  {
    && |ts| > 0 && |data| == AreaBufferSize && addr <= size && size <= AreaBufferSize
    && I2c.BlockSize * (|ts| - 1) <= size && addr == I2c.BlockSize * (|ts| - 1) + PieceLen(size, |ts| - 1)
    && PiecesRead(ts, offset, size) && AllSucceeded(ts)
    && data[..addr] == Joined(ts)
    && forall j :: addr <= j < AreaBufferSize ==> data[j] == 0
  }

  /** The block read the loop makes next, at `addr`. */
  predicate NextRead(t: I2c.Transaction, offset: nat, size: nat, addr: nat)
    requires addr <= size
  {
    var len := Min(I2c.BlockSize, size - addr);
    t.req == I2c.ReadBlockData((offset + addr) % 256, len) && |t.rx| == len
  }

  /** Where the loop stands before a read: at the start, or after some
    * reads with more of the area left. */
  ghost predicate BeforeRead(ts: seq<I2c.Transaction>, offset: nat, size: nat, addr: nat, data: seq<Byte>)
  {
    (ts == [] && addr == 0 && data == McuDriver.Zeros(AreaBufferSize)) ||
    (Progress(ts, offset, size, addr, data) && addr < size)
  }

  lemma BeforeReadAt(ts: seq<I2c.Transaction>, offset: nat, size: nat, addr: nat, data: seq<Byte>)
    requires size <= AreaBufferSize && BeforeRead(ts, offset, size, addr, data)
    ensures addr == I2c.BlockSize * |ts| && addr <= size && (|ts| > 0 ==> addr < size)
  {
  }

  /** A successful read continues the progress. */
  lemma NextPiece(ts: seq<I2c.Transaction>, t: I2c.Transaction, offset: nat, size: nat, addr: nat, data: seq<Byte>)
    requires size <= AreaBufferSize && BeforeRead(ts, offset, size, addr, data)
    requires NextRead(t, offset, size, addr) && t.res >= 0
    ensures Progress(ts + [t], offset, size, addr + |t.rx|, data[..addr] + t.rx + data[addr + |t.rx|..])
  {
    BeforeReadAt(ts, offset, size, addr, data);
    StepPieces(ts, t, offset, size);
    StepRead(data, addr, t.rx, ts, t);
  }

  /** A failed read ends the loop with `ok` false. */
  lemma FailedPiece(ts: seq<I2c.Transaction>, t: I2c.Transaction, offset: nat, size: nat, addr: nat, data: seq<Byte>)
    requires size <= AreaBufferSize && BeforeRead(ts, offset, size, addr, data)
    requires NextRead(t, offset, size, addr) && t.res < 0
    ensures AreaRead(ts + [t], offset, size, false, data)
  {
    BeforeReadAt(ts, offset, size, addr, data);
    StepPieces(ts, t, offset, size);
  }

  /** Once the area is covered the loop ends with `ok` true. */
  lemma AllPieces(ts: seq<I2c.Transaction>, offset: nat, size: nat, addr: nat, data: seq<Byte>)
    requires size <= AreaBufferSize && Progress(ts, offset, size, addr, data) && addr >= size
    ensures AreaRead(ts, offset, size, true, data)
  {
    assert data == data[..size] + data[size..];
    assert data[size..] == McuDriver.Zeros(AreaBufferSize - size);
    assert ts[..|ts| - 1] + [ts[|ts| - 1]] == ts;
  }

  /** The next block read keeps the reads in order. */
  lemma StepPieces(ts: seq<I2c.Transaction>, t: I2c.Transaction, offset: nat, size: nat)
    requires PiecesRead(ts, offset, size) && I2c.BlockSize * |ts| <= size
    requires |ts| > 0 ==> I2c.BlockSize * |ts| < size
    requires t.req == I2c.ReadBlockData((offset + I2c.BlockSize * |ts|) % 256, PieceLen(size, |ts|))
    requires |t.rx| == PieceLen(size, |ts|)
    ensures PiecesRead(ts + [t], offset, size)
    ensures AllSucceeded(ts) && t.res >= 0 ==> AllSucceeded(ts + [t])
    ensures (ts + [t])[..|ts|] == ts
  {
    assert (ts + [t])[..|ts|] == ts;
    var ts' := ts + [t];
    assert PieceAt(t, offset, size, |ts|);
    forall i | 0 <= i < |ts'|
      ensures PieceAt(ts'[i], offset, size, i)
    {
      if i < |ts| {
        assert ts'[i] == ts[i];
      }
    }
    if AllSucceeded(ts) && t.res >= 0 {
      forall i | 0 <= i < |ts'|
        ensures ts'[i].res >= 0
      {
        if i < |ts| {
          assert ts'[i] == ts[i];
        }
      }
    }
  }

  /** One block read of the loop: its bytes go right after those read so
    * far, and the rest of the buffer stays zero. */
  lemma StepRead(data: seq<Byte>, addr: nat, values: seq<Byte>, ts: seq<I2c.Transaction>, t: I2c.Transaction)
    requires addr + |values| <= |data| && data[..addr] == Joined(ts) && t.rx == values
    requires forall j :: addr <= j < |data| ==> data[j] == 0
    ensures var d := data[..addr] + values + data[addr + |values|..];
      |d| == |data| && d[..addr + |values|] == Joined(ts + [t]) &&
      forall j :: addr + |values| <= j < |d| ==> d[j] == 0
  {
    assert (ts + [t])[..|ts|] == ts;
    var d := data[..addr] + values + data[addr + |values|..];
    assert d[..addr + |values|] == data[..addr] + values;
  }

  /** Where field `n` of the product area starts: the area's fixed part is
    * 3 bytes, and each field is its type/length byte followed by as many
    * bytes as the low 6 bits say. None once a position leaves the buffer. */
  function FieldStart(data: seq<Byte>, n: nat): Option<nat>
  {
    if n == 0 then Some(3)
    else
      match FieldStart(data, n - 1)
      case None => None
      case Some(o) => if o < |data| then Some(o + 1 + data[o] % 64) else None
  }

  /** The serial number field: accepted only with the 8-bit text type code
    * in bits 7:6, and exactly as long as its low 6 bits say. */
  function SerialField(data: seq<Byte>): (sn: string)
    ensures sn != "" ==>
      exists o :: FieldStart(data, FruProductSnFieldNumber - 1) == Some(o) && o < |data| &&
        data[o] / 64 == LanguageDependent && |sn| == data[o] % 64 && o + 1 + |sn| <= |data| &&
        sn == BytesToString(data[o + 1..o + 1 + |sn|])
  {
    match FieldStart(data, FruProductSnFieldNumber - 1)
    case None => ""
    case Some(o) =>
      if o >= |data| || data[o] / 64 != LanguageDependent || o + 1 + data[o] % 64 > |data| then ""
      else BytesToString(data[o + 1..o + 1 + data[o] % 64])
  }

  /** The field-skip loop and the serial field it lands on. Where the
    * source would index past its buffer the model gives up with "". */
  method ParseSerial(data: seq<Byte>) returns (sn: string)
    ensures sn == SerialField(data)
  {
    var offset := 3;
    for index := 0 to FruProductSnFieldNumber - 1
      invariant FieldStart(data, index) == Some(offset)
    {
      if offset >= |data| {
        assert FieldStart(data, FruProductSnFieldNumber - 1) == None by {
          FieldStartStaysNone(data, index + 1, FruProductSnFieldNumber - 1);
        }
        return "";
      }
      offset := offset + 1 + data[offset] % 64;
    }
    if offset >= |data| {
      return "";
    }
    var snLen := data[offset] % 64;
    var snType := data[offset] / 64;
    if snType != LanguageDependent {
      return "";
    }
    if offset + 1 + snLen > |data| {
      return "";
    }
    sn := BytesToString(data[offset + 1..offset + 1 + snLen]);
  }

  lemma {:induction false} FieldStartStaysNone(data: seq<Byte>, n: nat, m: nat)
    requires n <= m && FieldStart(data, n) == None
    ensures FieldStart(data, m) == None
    decreases m - n
  {
    if n < m {
      FieldStartStaysNone(data, n + 1, m);
    }
  }

  /** getNVMeSerialNumberV1A: bytes 5..24 of the first block, when it starts
    * with 02 08 01; empty otherwise. */
  function V1aSerial(buf: seq<Byte>): (sn: string)
    requires |buf| >= V1aSnFieldOffset + V1aSnFieldSize
    ensures sn != "" <==> buf[..3] == [0x02, 0x08, 0x01]
    ensures sn != "" ==>
      |sn| == V1aSnFieldSize && forall i :: 0 <= i < V1aSnFieldSize ==> sn[i] as int == buf[V1aSnFieldOffset + i]
  {
    if buf[0] == 0x02 && buf[1] == 0x08 && buf[2] == 0x01 then
      BytesToString(buf[V1aSnFieldOffset..V1aSnFieldOffset + V1aSnFieldSize])
    else ""
  }

  /** What getNVMeSerialNumberFRU finds, given the first block `buf` and
    * the transactions it makes: nothing without a valid header naming a
    * product area, without the area's size, for an area larger than the
    * buffer, when a block read fails or when the area's checksum is not
    * zero; otherwise the serial field of the area as read into the zeroed
    * 256-byte buffer. */
  function FruSerial(buf: seq<Byte>, ts: seq<I2c.Transaction>): string
    requires |buf| >= FruHeaderSize
  {
    if !HeaderValid(buf) || buf[FruAreaProductByte] == 0 || |ts| == 0 || ts[0].res < 0 then ""
    else if ts[0].res * FruBlockSize > AreaBufferSize then ""
    else AreaSerial(ts[1..], ts[0].res * FruBlockSize)
  }

  /** What the product area of `size` bytes yields, given the block reads
    * made: nothing when one failed or when the checksum is not zero. */
  function AreaSerial(area: seq<I2c.Transaction>, size: nat): string
    requires size <= AreaBufferSize
  {
    if |area| == 0 || !AllSucceeded(area) then ""
    else if Sum(Joined(area)) % 256 != 0 then ""
    else SerialField(Joined(area) + McuDriver.Zeros(AreaBufferSize - size))
  }

  /** The product area read, its checksum and its serial field. */
  method ReadAreaSerial(dev: I2c.I2cDev, offset: nat, size: nat) returns (sn: string)
    requires size <= AreaBufferSize
    modifies dev
    ensures McuDriver.Extends(old(dev.history), dev.history)
    ensures var area := dev.history[|old(dev.history)|..];
      sn == AreaSerial(area, size) && PiecesRead(area, offset, size)
  {
    ghost var h0 := dev.history;
    var ok, data := ReadProductArea(dev, offset, size);
    ghost var area := dev.history[|h0|..];
    if !ok {
      assert area[|area| - 1].res < 0;
      return "";
    }
    var check := FruCalculateChecksum(data, size);
    assert data[..size] == Joined(area);
    if check != 0 {
      return "";
    }
    sn := ParseSerial(data);
  }

  /** getNVMeSerialNumberFRU. An area larger than the 256-byte buffer
    * overruns it in the source; the model gives up there. */
  method GetSerialFru(dev: I2c.I2cDev, buf: seq<Byte>) returns (sn: string)
    requires |buf| == I2c.BlockSize
    modifies dev
    ensures McuDriver.Extends(old(dev.history), dev.history)
    ensures sn == FruSerial(buf, dev.history[|old(dev.history)|..])
    ensures var ts := dev.history[|old(dev.history)|..];
      if !HeaderValid(buf) || buf[FruAreaProductByte] == 0 then ts == []
      else
        var offset := buf[FruAreaProductByte] * FruBlockSize;
        && |ts| >= 1 && ts[0].req == I2c.ReadByteData((offset + 1) % 256)
        && (|ts| > 1 ==> 0 <= ts[0].res && ts[0].res * FruBlockSize <= AreaBufferSize &&
                         PiecesRead(ts[1..], offset, ts[0].res * FruBlockSize))
  {
    ghost var h0 := dev.history;
    var valid := FruValidateHeader(buf);
    if !valid || buf[FruAreaProductByte] == 0 {
      return "";
    }
    var offset := buf[FruAreaProductByte] * FruBlockSize;
    var res := McuDriver.ReadByteData(dev, (offset + 1) % 256);
    ghost var h1 := dev.history;
    assert dev.history[|h0|..] == [dev.history[|h0|]];
    if res < 0 {
      return "";
    }
    var size := res * FruBlockSize;
    if size > AreaBufferSize {
      return "";
    }
    sn := ReadAreaSerial(dev, offset, size);
    ghost var ts := dev.history[|h0|..];
    assert ts[0] == h1[|h0|] && ts[1..] == dev.history[|h1|..] by {
      assert dev.history[..|h1|] == h1;
    }
  }

  /** What getNVMeSerialNumber finds, given the transactions it makes: the
    * selector write and the first block must succeed; the FRU serial or,
    * failing that, the V1A one, with trailing blanks and everything after
    * a NUL cut. */
  function NvmeSerial(ts: seq<I2c.Transaction>): (sn: string)
    ensures Common.AllPrintable(sn)
  {
    if |ts| < 2 || ts[0].res < 0 || ts[1].res < 0 || |ts[1].rx| != I2c.BlockSize then ""
    else
      var fru := FruSerial(ts[1].rx, ts[2..]);
      Common.Rtrim(if fru != "" then fru else V1aSerial(ts[1].rx), Common.DefaultTrimChars)
  }

  /** getNVMeSerialNumber: nothing for a drive without a bus or whose VPD
    * device does not open; else the selector write, the first block, and
    * the serial found from them. */
  method GetNVMeSerialNumber(driveBus: string, dev: I2c.I2cDev) returns (sn: string)
    modifies dev
    ensures McuDriver.Extends(old(dev.history), dev.history)
    ensures var ts := dev.history[|old(dev.history)|..];
      if driveBus == "" || !dev.ok then sn == "" && ts == []
      else
        && sn == NvmeSerial(ts)
        && |ts| >= 1 && ts[0].req == I2c.WriteByte(0)
        && (ts[0].res < 0 ==> |ts| == 1)
        && (|ts| >= 2 ==> ts[1].req == I2c.ReadBlockData(0, I2c.BlockSize as Byte))
  {
    if driveBus == "" || !dev.ok {
      return "";
    }
    ghost var h0 := dev.history;
    var res := McuDriver.WriteByte(dev, 0);
    if res < 0 {
      assert dev.history[|h0|..] == [dev.history[|h0|]];
      return "";
    }
    var buf;
    res, buf := McuDriver.ReadBlockData(dev, 0, I2c.BlockSize as Byte);
    ghost var h2 := dev.history;
    if res < 0 {
      assert dev.history[|h0|..] == [dev.history[|h0|], dev.history[|h0| + 1]];
      return "";
    }
    var fru := GetSerialFru(dev, buf);
    SplitAfterTwo(h0, h2, dev.history);
    NvmeSerialOf(dev.history[|h0|..], buf, fru);
    sn := Common.Rtrim(if fru != "" then fru else V1aSerial(buf), Common.DefaultTrimChars);
  }

  /** A history grown by two transactions and then by more. */
  lemma SplitAfterTwo(h0: seq<I2c.Transaction>, h2: seq<I2c.Transaction>, h3: seq<I2c.Transaction>)
    requires McuDriver.Extends(h0, h2) && |h2| == |h0| + 2 && McuDriver.Extends(h2, h3)
    ensures McuDriver.Extends(h0, h3)
    ensures var ts := h3[|h0|..];
      |ts| >= 2 && ts[0] == h2[|h0|] && ts[1] == h2[|h0| + 1] && ts[2..] == h3[|h2|..]
  {
    assert h3[..|h2|] == h2;
    assert h3[..|h0|] == h2[..|h0|];
  }

  /** The serial of two successful reads: from the FRU, or else V1A. */
  lemma NvmeSerialOf(ts: seq<I2c.Transaction>, buf: seq<Byte>, fru: string)
    requires |ts| >= 2 && ts[0].res >= 0 && ts[1].res >= 0 && ts[1].rx == buf && |buf| == I2c.BlockSize
    requires fru == FruSerial(buf, ts[2..])
    ensures NvmeSerial(ts) == Common.Rtrim(if fru != "" then fru else V1aSerial(buf), Common.DefaultTrimChars)
  {
  }
}
