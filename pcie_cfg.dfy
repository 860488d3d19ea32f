// The PCIe bifurcation configuration the HW manager collects from the
// hardware components (src/hw/pcie_cfg.cpp): each component claims a port
// with a bifurcation mode, two claims on one port are merged, and the
// collected table is turned into (socket, IOU, mode) entries.
module PcieCfg {
  import opened Wrappers

  /** Bifurcation codes of the options: a port of 16 lanes split in four
    * x4 links, x4x4 on the low half and x8 on the high one, the reverse,
    * two x8 links, or one x16 link. */
  const BifurcateX4X4X4X4: Byte := 0
  const BifurcateX4X4X8: Byte := 1
  const BifurcateX8X4X4: Byte := 2
  const BifurcateX8X8: Byte := 3
  const BifurcateX16: Byte := 4

  predicate IsHexDigit(c: char)
  {
    ('0' <= c <= '9') || ('a' <= c <= 'f') || ('A' <= c <= 'F')
  }

  function HexValue(c: char): (v: nat)
    requires IsHexDigit(c)
    ensures v < 16
  {
    if '0' <= c <= '9' then c as int - '0' as int
    else if 'a' <= c <= 'f' then c as int - 'a' as int + 10
    else c as int - 'A' as int + 10
  }

  /** `std::from_chars` of two characters in base 16 into an unsigned
    * variable that starts at 0: the leading hex digits, and 0 when there
    * is none (an error leaves the variable unchanged). */
  function Hex2(s: string): (v: Byte)
    requires |s| == 2
  {
    if !IsHexDigit(s[0]) then 0
    else if !IsHexDigit(s[1]) then HexValue(s[0])
    else 16 * HexValue(s[0]) + HexValue(s[1])
  }

  /** The port an option claims: the socket's low byte above the IOU
    * number in the first two characters. */
  function PortKey(socket: int, optValue: string): Word
    requires |optValue| >= 4
  {
    (socket % 256) * 256 + Hex2(optValue[0..2])
  }

  /** The mode an option requests, in characters 2 and 3. */
  function ModeCode(optValue: string): Byte
    requires |optValue| >= 4
  {
    Hex2(optValue[2..4])
  }

  /** The merge of a new request with the mode a port already holds: the
    * stored mode, or None for incompatible requests. */
  function Merge(held: Byte, value: Byte): Option<Byte>
  {
    if value == held then Some(held)
    else if (held == BifurcateX4X4X8 || held == BifurcateX8X4X4) && value == BifurcateX8X8 then Some(held)
    else if held == BifurcateX8X8 && (value == BifurcateX4X4X8 || value == BifurcateX8X4X4) then Some(value)
    else if (held == BifurcateX4X4X8 && value == BifurcateX8X4X4) || (held == BifurcateX8X4X4 && value == BifurcateX4X4X8) then
      Some(BifurcateX4X4X4X4)
    else None
  }

  /** A claim on port `key` with mode `value`: an unclaimed port takes the
    * mode, a claimed one the merge; an incompatible claim fails and
    * changes nothing. */
  function Claim(table: map<Word, Byte>, key: Word, value: Byte): (bool, map<Word, Byte>)
  {
    if key !in table then (true, table[key := value])
    else match Merge(table[key], value)
      case None => (false, table)
      case Some(v) => (true, table[key := v])
  }

  /** The two halves of a port: whether the low and the high 8 lanes are
    * split into x4 links. */
  datatype Halves = Halves(lowSplit: bool, highSplit: bool)

  /** The halves of each of the four split codes. */
  function HalvesOf(code: Byte): Halves
    requires code <= BifurcateX8X8
  {
    if code == BifurcateX4X4X4X4 then Halves(true, true)
    else if code == BifurcateX4X4X8 then Halves(true, false)
    else if code == BifurcateX8X4X4 then Halves(false, true)
    else Halves(false, false)
  }

  /** The merge assumes each component owns one half of the port and
    * requests x8 for the other: for a low-half owner (x4x4x8 or x8x8)
    * and a high-half owner (x8x4x4 or x8x8) it always succeeds, in either
    * order, and a half ends split exactly when its owner split it. */
  lemma MergeJoinsHalves(low: Byte, high: Byte)
    requires low == BifurcateX4X4X8 || low == BifurcateX8X8
    requires high == BifurcateX8X4X4 || high == BifurcateX8X8
    ensures Merge(low, high).Some? && Merge(high, low) == Merge(low, high)
    ensures Merge(low, high).value <= BifurcateX8X8
    ensures HalvesOf(Merge(low, high).value) == Halves(HalvesOf(low).lowSplit, HalvesOf(high).highSplit)
  {
  }

  /** Whether two requests are compatible, and what is stored, does not
    * depend on which came first. */
  lemma MergeSymmetric(a: Byte, b: Byte)
    ensures Merge(a, b) == Merge(b, a)
  {
  }

  /** The stored mode is one of the two requested, or four x4 links. */
  lemma MergeStoresRequested(a: Byte, b: Byte)
    requires Merge(a, b).Some?
    ensures Merge(a, b).value in {a, b, BifurcateX4X4X4X4}
  {
  }

  /** Two components claiming a free port in either order get the same
    * verdict for the second claim, and when it succeeds, the same table. */
  lemma ClaimsCommute(table: map<Word, Byte>, key: Word, a: Byte, b: Byte)
    requires key !in table
    ensures var ab := Claim(Claim(table, key, a).1, key, b);
      var ba := Claim(Claim(table, key, b).1, key, a);
      ab.0 == ba.0 && (ab.0 ==> ab.1 == ba.1)
  {
    MergeSymmetric(a, b);
    if Merge(a, b).Some? {
      var v := Merge(a, b).value;
      assert table[key := a][key := v] == table[key := v];
      assert table[key := b][key := v] == table[key := v];
    }
  }

  /** An incompatible claim fails and leaves the table unchanged; with
    * the table's own mode it succeeds and changes nothing. */
  lemma ClaimKeeps(table: map<Word, Byte>, key: Word, value: Byte)
    requires key in table
    ensures Merge(table[key], value).None? ==> Claim(table, key, value) == (false, table)
    ensures value == table[key] ==> Claim(table, key, value) == (true, table)
  {
    assert table[key := table[key]] == table;
  }

  datatype BifurcationMode = X4x4x4x4 | X4x4x8 | X8x4x4 | X8x8 | X16 | Disabled

  /** The mode published for a stored code; unknown codes disable the
    * port. */
  function ModeOf(code: Byte): BifurcationMode
  {
    if code == BifurcateX4X4X4X4 then X4x4x4x4
    else if code == BifurcateX4X4X8 then X4x4x8
    else if code == BifurcateX8X4X4 then X8x4x4
    else if code == BifurcateX8X8 then X8x8
    else if code == BifurcateX16 then X16
    else Disabled
  }

  /** One entry of the published configuration. */
  datatype Entry = Entry(socket: Byte, iou: Byte, mode: BifurcationMode)

  function KeyOf(e: Entry): Word
  {
    e.socket * 256 + e.iou
  }

  /** A port key splits back into the socket's low byte and the IOU number
    * of the option that made it. */
  lemma PortKeyRoundTrip(socket: int, optValue: string)
    requires |optValue| >= 4
    ensures PortKey(socket, optValue) / 256 == socket % 256
    ensures PortKey(socket, optValue) % 256 == Hex2(optValue[0..2])
  {
  }

  /** The smallest port of a non-empty set of ports. */
  ghost function Smallest(s: set<Word>): (m: Word)
    requires s != {}
    ensures m in s && forall j :: j in s ==> m <= j
    decreases |s|
  {
    var x :| x in s;
    if s == {x} then
      assert forall j :: j in s ==> j == x;
      x
    else
      var r := Smallest(s - {x});
      assert forall j :: j in s ==> j == x || j in s - {x};
      if x < r then x else r
  }

  /** The ports of a set in ascending order, the order in which the
    * table's entries are visited. */
  ghost function SortedKeys(s: set<Word>): seq<Word>
    decreases |s|
  {
    if s == {} then [] else
      var m := Smallest(s);
      [m] + SortedKeys(s - {m})
  }

  /** The ascending order holds every port of the set and nothing else. */
  lemma {:induction false} SortedKeysMembers(s: set<Word>)
    ensures forall k :: k in SortedKeys(s) <==> k in s
    decreases |s|
  {
    if s != {} {
      SortedKeysMembers(s - {Smallest(s)});
    }
  }

  /** The ascending order is strictly increasing, so no port appears twice. */
  lemma {:induction false} SortedKeysAscending(s: set<Word>)
    ensures forall i, j :: 0 <= i < j < |SortedKeys(s)| ==> SortedKeys(s)[i] < SortedKeys(s)[j]
    decreases |s|
  {
    if s != {} {
      var m := Smallest(s);
      var rest := SortedKeys(s - {m});
      SortedKeysAscending(s - {m});
      SortedKeysMembers(s - {m});
      forall i, j | 0 <= i < j < |SortedKeys(s)|
        ensures SortedKeys(s)[i] < SortedKeys(s)[j]
      {
        assert SortedKeys(s)[j] == rest[j - 1];
        if i > 0 {
          assert SortedKeys(s)[i] == rest[i - 1];
        } else {
          assert rest[j - 1] in s - {m};
        }
      }
    }
  }

  /** The entry published for port `k` of `table`. */
  function EntryOf(table: map<Word, Byte>, k: Word): (e: Entry)
    ensures KeyOf(e) == k
  {
    Entry(k / 256, k % 256, if k in table then ModeOf(table[k]) else Disabled)
  }

  class PcieConfig {
    /** Claimed ports and their modes. */
    var bifurcationConfig: map<Word, Byte>

    constructor ()
      ensures bifurcationConfig == map[]
    {
      bifurcationConfig := map[];
    }

    /** `addBifurcationConfig`: an option shorter than four characters is
      * refused; otherwise the claim on its port is recorded. Characters
      * after the fourth (a slot description) are ignored. */
    method AddBifurcationConfig(socket: int, optValue: string) returns (ok: bool)
      modifies this
      ensures |optValue| < 4 ==> !ok && bifurcationConfig == old(bifurcationConfig)
      ensures |optValue| >= 4 ==>
        (ok, bifurcationConfig) == Claim(old(bifurcationConfig), PortKey(socket, optValue), ModeCode(optValue))
    {
      if |optValue| < 4 {
        return false;
      }
      var instance := Hex2(optValue[0..2]);
      var value := Hex2(optValue[2..4]);
      instance := (socket % 256) * 256 + instance;
      if instance in bifurcationConfig {
        var oldValue := bifurcationConfig[instance];
        if value == oldValue {
          assert bifurcationConfig[instance := value] == bifurcationConfig;
          return true;
        } else if (oldValue == BifurcateX4X4X8 || oldValue == BifurcateX8X4X4) && value == BifurcateX8X8 {
          assert bifurcationConfig[instance := oldValue] == bifurcationConfig;
          return true;
        } else if oldValue == BifurcateX8X8 && (value == BifurcateX4X4X8 || value == BifurcateX8X4X4) {
          bifurcationConfig := bifurcationConfig[instance := value];
          return true;
        } else if (oldValue == BifurcateX4X4X8 && value == BifurcateX8X4X4)
                  || (oldValue == BifurcateX8X4X4 && value == BifurcateX4X4X8) {
          bifurcationConfig := bifurcationConfig[instance := BifurcateX4X4X4X4];
          return true;
        } else {
          return false;
        }
      }
      bifurcationConfig := bifurcationConfig[instance := value];
      return true;
    }

    /** The configuration the destructor publishes: one entry per claimed
      * port, in ascending port order, with the port split into socket and
      * IOU and the code decoded. */
    method BifurcationConfiguration() returns (cfg: seq<Entry>)
      ensures |cfg| == |SortedKeys(bifurcationConfig.Keys)|
      ensures forall i :: 0 <= i < |cfg| ==>
        cfg[i] == EntryOf(bifurcationConfig, SortedKeys(bifurcationConfig.Keys)[i])
    {
      cfg := [];
      var remaining := bifurcationConfig.Keys;
      ghost var done: seq<Word> := [];
      while remaining != {}
        invariant remaining <= bifurcationConfig.Keys
        invariant done + SortedKeys(remaining) == SortedKeys(bifurcationConfig.Keys)
        invariant |cfg| == |done|
        invariant forall i :: 0 <= i < |cfg| ==> cfg[i] == EntryOf(bifurcationConfig, done[i])
        decreases |remaining|
      {
        assert Smallest(remaining) in remaining;
        var addr :| addr in remaining && forall j :: j in remaining ==> addr <= j;
        assert addr == Smallest(remaining);
        var mode := bifurcationConfig[addr];
        var e := Entry(addr / 256, addr % 256, ModeOf(mode));
        assert SortedKeys(remaining) == [addr] + SortedKeys(remaining - {addr});
        cfg, done, remaining := cfg + [e], done + [addr], remaining - {addr};
      }
    }
  }

  /** Every claimed port is published exactly once, in ascending order,
    * with its stored mode. */
  lemma PublishedTable(table: map<Word, Byte>, cfg: seq<Entry>)
    requires |cfg| == |SortedKeys(table.Keys)|
    requires forall i :: 0 <= i < |cfg| ==> cfg[i] == EntryOf(table, SortedKeys(table.Keys)[i])
    ensures forall i :: 0 <= i < |cfg| ==>
      KeyOf(cfg[i]) in table && cfg[i].mode == ModeOf(table[KeyOf(cfg[i])])
    ensures forall i, j :: 0 <= i < j < |cfg| ==> KeyOf(cfg[i]) < KeyOf(cfg[j])
    ensures forall k :: k in table ==> exists i :: 0 <= i < |cfg| && KeyOf(cfg[i]) == k
  {
    var keys := SortedKeys(table.Keys);
    SortedKeysMembers(table.Keys);
    SortedKeysAscending(table.Keys);
    forall i | 0 <= i < |cfg|
      ensures KeyOf(cfg[i]) == keys[i]
    {
    }
    forall k | k in table
      ensures exists i :: 0 <= i < |cfg| && KeyOf(cfg[i]) == k
    {
      assert k in keys;
      var i :| 0 <= i < |keys| && keys[i] == k;
      assert KeyOf(cfg[i]) == k;
    }
  }
}
