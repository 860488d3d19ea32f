// The HW manager (src/hw/hw_mngr.cpp, src/hw/hw_mngr.hpp): the hardware
// configuration collected from the options of the components, the fan
// module detection by RPM, and the fan objects it publishes.
module HwManager {
  import opened Wrappers
  import PcieCfg
  import Common

  // ---------------------------------------------------------------------
  // Product description (its registry is not part of this model)
  // ---------------------------------------------------------------------

  /** The fan performance type of a module; the registry's enumerators are
    * not part of this model, so a known type is kept as its code. */
  datatype FanType = Unknown | Typed(code: nat)

  /** A row of a product's fan detection table: inclusive RPM ranges of
    * the inlet and the outlet rotor at full speed, and the module they
    * identify. */
  datatype FanModuleInfo = FanModuleInfo(
    fanType: FanType,
    inletRangeMin: nat, inletRangeMax: nat,
    outletRangeMin: nat, outletRangeMax: nat,
    partNumber: string, prettyName: string)

  /** The static unknown module: only its type is set. */
  const UnknownFanModule := FanModuleInfo(Unknown, 0, 0, 0, 0, "", "")

  datatype ConnectorType = SystemConnector | CpuConnector | ChassisConnector

  /** A fan connector of the platform. */
  datatype FanConnector = FanConnector(
    kind: ConnectorType, fanIndex: nat, zone: string, connector: nat,
    tachIndexA: nat, tachIndexB: nat, pwmIndex: nat, pwmLimitMax: nat)

  /** The description of a product: its fan connectors, in ascending
    * connector-index order (the order of the registry's map), and its
    * detection table. */
  datatype ProductDescription = ProductDescription(
    productName: string, sysFanPN: string, cpuFanPN: string,
    fans: seq<(nat, FanConnector)>, detectionFanTable: seq<FanModuleInfo>)

  // ---------------------------------------------------------------------
  // Fan module detection by RPM
  // ---------------------------------------------------------------------

  /** Whether a table row's ranges both contain the readings. */
  predicate Matches(item: FanModuleInfo, inletRpm: nat, outletRpm: nat)
  {
    item.inletRangeMin <= inletRpm <= item.inletRangeMax &&
    item.outletRangeMin <= outletRpm <= item.outletRangeMax
  }

  /** The readings in the order they are matched: when both are non-zero,
    * the larger one is taken as the inlet. */
  function Ordered(inletRpm: nat, outletRpm: nat): (r: (nat, nat))
    ensures inletRpm != 0 && outletRpm != 0 ==> r.0 >= r.1 && multiset{r.0, r.1} == multiset{inletRpm, outletRpm}
    ensures inletRpm == 0 || outletRpm == 0 ==> r == (inletRpm, outletRpm)
  {
    if inletRpm != 0 && outletRpm != 0 && inletRpm < outletRpm then (outletRpm, inletRpm) else (inletRpm, outletRpm)
  }

  /** The first row from `i` on that matches the readings. */
  function FirstMatch(table: seq<FanModuleInfo>, i: nat, inletRpm: nat, outletRpm: nat): (r: Option<nat>)
    requires i <= |table|
    ensures r.Some? ==>
      i <= r.value < |table| && Matches(table[r.value], inletRpm, outletRpm) &&
      forall j :: i <= j < r.value ==> !Matches(table[j], inletRpm, outletRpm)
    ensures r.None? ==> forall j :: i <= j < |table| ==> !Matches(table[j], inletRpm, outletRpm)
    decreases |table| - i
  {
    if i == |table| then None
    else if Matches(table[i], inletRpm, outletRpm) then Some(i)
    else FirstMatch(table, i + 1, inletRpm, outletRpm)
  }

  /** The module a fan is identified as. */
  function FanInfoByRPM(table: seq<FanModuleInfo>, inletRpm: nat, outletRpm: nat): FanModuleInfo
  {
    var (a, b) := Ordered(inletRpm, outletRpm);
    match FirstMatch(table, 0, a, b)
    case Some(i) => table[i]
    case None => UnknownFanModule
  }

  /** `getFanInfoByRPM`: the table scanned in order. */
  method GetFanInfoByRPM(table: seq<FanModuleInfo>, inletRpm: nat, outletRpm: nat) returns (r: FanModuleInfo)
    ensures r == FanInfoByRPM(table, inletRpm, outletRpm)
  {
    var inlet, outlet := inletRpm, outletRpm;
    if inlet != 0 && outlet != 0 && inlet < outlet {
      inlet, outlet := outlet, inlet;
    }
    var i := 0;
    while i < |table|
      invariant 0 <= i <= |table|
      invariant FirstMatch(table, 0, inlet, outlet) == FirstMatch(table, i, inlet, outlet)
    {
      if Matches(table[i], inlet, outlet) {
        return table[i];
      }
      i := i + 1;
    }
    return UnknownFanModule;
  }

  /** The identified module is the first row matching the ordered
    * readings, or the unknown module when no row matches. */
  lemma FanInfoIsFirstMatch(table: seq<FanModuleInfo>, inletRpm: nat, outletRpm: nat)
    ensures var (a, b) := Ordered(inletRpm, outletRpm);
      var r := FanInfoByRPM(table, inletRpm, outletRpm);
      (r == UnknownFanModule && forall j :: 0 <= j < |table| ==> !Matches(table[j], a, b)) ||
      (exists i :: 0 <= i < |table| && r == table[i] && Matches(table[i], a, b) &&
        forall j :: 0 <= j < i ==> !Matches(table[j], a, b))
  {
    var (a, b) := Ordered(inletRpm, outletRpm);
    var m := FirstMatch(table, 0, a, b);
    if m.Some? {
      assert FanInfoByRPM(table, inletRpm, outletRpm) == table[m.value];
    }
  }

  /** With both rotors turning, which tachometer is read as the inlet
    * does not matter. */
  lemma FanInfoSymmetric(table: seq<FanModuleInfo>, a: nat, b: nat)
    requires a != 0 && b != 0
    ensures FanInfoByRPM(table, a, b) == FanInfoByRPM(table, b, a)
  {
    assert Ordered(a, b) == Ordered(b, a);
  }

  // ---------------------------------------------------------------------
  // Zone names
  // ---------------------------------------------------------------------

  /** `std::to_string` of a non-negative number. */
  function NatToString(n: nat): (s: string)
    ensures |s| >= 1 && forall i :: 0 <= i < |s| ==> '0' <= s[i] <= '9'
  {
    if n < 10 then [('0' as int + n) as char]
    else NatToString(n / 10) + [('0' as int + n % 10) as char]
  }

  /** The PID zone an option's instance number names: 0x10..0x1F are the
    * chassis zones numbered by the low nibble, 1, 2 and 3 are the main,
    * CPU and PSU zones, and every other number names none. The mask
    * `index & 0xF0` is written as arithmetic on the non-negative index. */
  function GetZoneName(index: int): (r: string)
  {
    if index < 0 || index >= 0xFF then ""
    else if (index / 16) % 16 == 1 then "Chassis" + NatToString(index % 16)
    else if index == 1 then "Main"
    else if index == 2 then "CPU"
    else if index == 3 then "PSU"
    else ""
  }

  /** Exactly the chassis numbers and 1..3 name a zone. */
  lemma ZoneNameDefined(index: int)
    ensures GetZoneName(index) != "" <==> 0x10 <= index <= 0x1F || 1 <= index <= 3
  {
  }

  /** The decimal numbers of 0..15 differ. */
  lemma NibbleNamesDiffer(a: nat, b: nat)
    requires a < 16 && b < 16 && NatToString(a) == NatToString(b)
    ensures a == b
  {
    if a >= 10 {
      assert NatToString(a)[1] == ('0' as int + a % 10) as char;
    }
    if b >= 10 {
      assert NatToString(b)[1] == ('0' as int + b % 10) as char;
    }
  }

  /** Two instance numbers that name a zone name different zones. */
  lemma ZoneNameInjective(a: int, b: int)
    requires GetZoneName(a) != "" && GetZoneName(a) == GetZoneName(b)
    ensures a == b
  {
    ZoneNameDefined(a);
    ZoneNameDefined(b);
    if 0x10 <= a <= 0x1F && 0x10 <= b <= 0x1F {
      assert GetZoneName(a)[7..] == NatToString(a % 16);
      assert GetZoneName(b)[7..] == NatToString(b % 16);
      NibbleNamesDiffer(a % 16, b % 16);
    }
  }

  // ---------------------------------------------------------------------
  // The collected configuration (hw_mngr.hpp)
  // ---------------------------------------------------------------------

  /** A PID zone of the chassis: its fan connectors and its minimum
    * speed (0 when not set). */
  datatype ChassisPIDZone = ChassisPIDZone(fanConnector: seq<nat>, fanMinSpeed: nat)
  {
    /** `operator==`: the connector lists and the minimum speeds. */
    predicate Equals(right: ChassisPIDZone): (r: bool)
      ensures r <==> this == right
    {
      fanConnector == right.fanConnector && fanMinSpeed == right.fanMinSpeed
    }
  }

  /** The zone `operator[]` inserts: no connectors and speed 0. */
  const EmptyZone := ChassisPIDZone([], 0)

  /** The configuration collected from the options; the product
    * description is held by value (the source holds a pointer into the
    * registry, so equal descriptions are the same pointer). */
  datatype HWManagerData = HWManagerData(
    desc: Option<ProductDescription>,
    chassisModel: string, chassisPartNumber: string, chassisSerial: string,
    haveCPUFans: bool,
    cpuPresence: map<nat, bool>,
    chassisFans: map<string, ChassisPIDZone>)
  {
    /** `operator==`: all seven fields. */
    predicate Equals(right: HWManagerData): (r: bool)
      ensures r <==> this == right
    {
      desc == right.desc && chassisModel == right.chassisModel &&
      chassisPartNumber == right.chassisPartNumber && chassisSerial == right.chassisSerial &&
      haveCPUFans == right.haveCPUFans && cpuPresence == right.cpuPresence &&
      chassisFans == right.chassisFans
    }

    /** `reset()`: no product, empty strings, passive CPU cooling and no
      * CPUs or zones. */
    function Reset(): (r: HWManagerData)
      ensures r.desc.None? && r.chassisModel == "" && r.chassisPartNumber == "" && r.chassisSerial == ""
      ensures !r.haveCPUFans && r.cpuPresence == map[] && r.chassisFans == map[]
    {
      HWManagerData(None, "", "", "", false, map[], map[])
    }

    /** The zone named `zone`, or the one `operator[]` would insert. */
    function Zone(zone: string): ChassisPIDZone
    {
      if zone in chassisFans then chassisFans[zone] else EmptyZone
    }
  }

  /** The default constructor: passive CPU cooling and empty strings and
    * maps; it leaves the description pointer uninitialised, so it is a
    * parameter here. */
  function DefaultData(desc: Option<ProductDescription>): (r: HWManagerData)
    ensures !r.haveCPUFans && r.chassisFans == map[] && r.cpuPresence == map[]
  {
    HWManagerData(desc, "", "", "", false, map[], map[])
  }

  /** A reset configuration is the default one without a product,
    * whatever it held before, and resetting is idempotent. */
  lemma ResetIsDefault(d: HWManagerData)
    ensures d.Reset() == DefaultData(None) && d.Reset().Reset() == d.Reset()
  {
  }

  // ---------------------------------------------------------------------
  // Options
  // ---------------------------------------------------------------------

  /** The option types; `NoOption` is the enumeration's `none`. */
  datatype OptionType = MacAddr | CpuCooling | ChassisFans | PidZoneMinSpeed | PcieBifurcation | NoOption

  /** The outcome of `std::from_chars`: success, the value read, and how
    * many characters it consumed. */
  datatype Parsed = Parsed(ok: bool, value: int, next: nat)

  /** `std::from_chars` in base 16 into an `int` over a two-character
    * window: an optional '-', then the leading hex digits; without a digit
    * it fails and consumes nothing. */
  function FromCharsHex(w: string): (p: Parsed)
    requires |w| == 2
    ensures p.ok ==> 1 <= p.next <= 2 && -15 <= p.value <= 255
    ensures !p.ok ==> p.next == 0
  {
    if w[0] == '-' then
      if PcieCfg.IsHexDigit(w[1]) then Parsed(true, -(PcieCfg.HexValue(w[1]) as int), 2) else Parsed(false, 0, 0)
    else if !PcieCfg.IsHexDigit(w[0]) then Parsed(false, 0, 0)
    else if !PcieCfg.IsHexDigit(w[1]) then Parsed(true, PcieCfg.HexValue(w[0]), 1)
    else Parsed(true, 16 * PcieCfg.HexValue(w[0]) + PcieCfg.HexValue(w[1]), 2)
  }

  /** Two hex digits are read as one byte. */
  lemma FromCharsHexPair(w: string)
    requires |w| == 2 && PcieCfg.IsHexDigit(w[0]) && PcieCfg.IsHexDigit(w[1])
    ensures FromCharsHex(w) == Parsed(true, PcieCfg.Hex2(w), 2)
  {
  }

  /** An `int` stored into a `size_t`. */
  function SizeT(x: int): nat
  {
    x % 0x1_0000_0000_0000_0000
  }

  /** The connector list of a chassisFans option: `count` numbers read
    * from `ptr` on, each from a two-character window starting where the
    * previous read stopped; a failed read ends the list early and
    * reports failure. */
  function ParseFans(value: string, ptr: nat, count: nat): (r: (bool, seq<nat>))
    requires ptr + 2 * count <= |value|
    ensures |r.1| <= count && (r.0 ==> |r.1| == count)
    decreases count
  {
    if count == 0 then (true, [])
    else
      var p := FromCharsHex(value[ptr..ptr + 2]);
      if !p.ok then (false, [])
      else
        var rest := ParseFans(value, ptr + p.next, count - 1);
        (rest.0, [SizeT(p.value)] + rest.1)
  }

  /** The number of connectors a chassisFans option announces, when its
    * header is accepted: the first window parses and the option holds
    * `(cnt + 1) * 2` characters, compared as `size_t`. */
  function FanCount(value: string): (r: Option<int>)
    ensures r.Some? ==> 2 <= |value| && (r.value >= -1 ==> 2 * (r.value + 1) <= |value|)
    ensures r.Some? && |value| < 0x1_0000_0000_0000_0000 - 28 ==> r.value >= -1
  {
    if |value| < 2 then None
    else
      var p := FromCharsHex(value[0..2]);
      if !p.ok || |value| < SizeT((p.value + 1) * 2) then None
      else Some(p.value)
  }

  /** The connector loop of the chassisFans option: `count` numbers, each
    * read where the previous read stopped; a failed read stops it with
    * the numbers read so far. */
  method ReadConnectors(value: string, start: nat, count: nat) returns (ok: bool, list: seq<nat>)
    requires start + 2 * count <= |value|
    ensures (ok, list) == ParseFans(value, start, count)
  {
    var ptr: nat := start;
    list := [];
    var i: nat := 0;
    assert [] + ParseFans(value, start, count).1 == ParseFans(value, start, count).1;
    while i < count
      invariant i <= count && ptr + 2 * (count - i) <= |value|
      invariant var r := ParseFans(value, ptr, count - i);
        ParseFans(value, start, count) == (r.0, list + r.1)
    {
      var res := FromCharsHex(value[ptr..ptr + 2]);
      if !res.ok {
        assert list + [] == list;
        return false, list;
      }
      ghost var rest := ParseFans(value, ptr + res.next, count - i - 1);
      assert list + ([SizeT(res.value)] + rest.1) == (list + [SizeT(res.value)]) + rest.1;
      list := list + [SizeT(res.value)];
      ptr := ptr + res.next;
      i := i + 1;
    }
    assert list + [] == list;
    return true, list;
  }

  /** The result of `setOption` and the configuration it leaves. */
  function SetOptionResult(config: HWManagerData, optType: OptionType, instance: int, value: string): (bool, HWManagerData)
  {
    match optType
    case CpuCooling =>
      if value == "00" then (true, config.(haveCPUFans := false))
      else if value == "01" then (true, config.(haveCPUFans := true))
      else (true, config)
    case ChassisFans =>
      var zone := GetZoneName(instance);
      (match FanCount(value)
       case None => (false, config)
       case Some(cnt) =>
         var p := FromCharsHex(value[0..2]);
         var r := ParseFans(value, p.next, if cnt < 0 then 0 else cnt);
         (r.0, config.(chassisFans := config.chassisFans[zone := config.Zone(zone).(fanConnector := r.1)])))
    case PidZoneMinSpeed =>
      var zone := GetZoneName(instance);
      if |value| != 2 then (false, config)
      else
        var p := FromCharsHex(value);
        var speed := if p.ok then p.value else 0;
        if 5 <= speed <= 100 then
          (true, config.(chassisFans := config.chassisFans[zone := config.Zone(zone).(fanMinSpeed := speed)]))
        else (true, config)
    case _ => (false, config)
  }

  /** The CPU cooling option: "00" is passive and "01" active cooling;
    * any other value is accepted and changes nothing. */
  lemma CpuCoolingOption(config: HWManagerData, instance: int, value: string)
    ensures var (ok, c) := SetOptionResult(config, CpuCooling, instance, value);
      ok && c == config.(haveCPUFans := c.haveCPUFans) &&
      (value == "00" ==> !c.haveCPUFans) && (value == "01" ==> c.haveCPUFans) &&
      (value != "00" && value != "01" ==> c == config)
  {
  }

  /** A chassisFans option of hex digits with enough characters for the
    * count in its first byte sets the zone's list to exactly the next
    * `count` bytes. */
  lemma ChassisFansWellFormed(config: HWManagerData, instance: int, value: string)
    requires |value| >= 2 && forall i :: 0 <= i < |value| ==> PcieCfg.IsHexDigit(value[i])
    requires |value| >= 2 * (PcieCfg.Hex2(value[0..2]) + 1)
    ensures var (ok, c) := SetOptionResult(config, ChassisFans, instance, value);
      var zone := GetZoneName(instance);
      var cnt := PcieCfg.Hex2(value[0..2]);
      ok && c == config.(chassisFans := c.chassisFans) && zone in c.chassisFans &&
      c.chassisFans == config.chassisFans[zone := c.chassisFans[zone]] &&
      c.chassisFans[zone].fanMinSpeed == config.Zone(zone).fanMinSpeed &&
      |c.chassisFans[zone].fanConnector| == cnt &&
      forall i :: 0 <= i < cnt ==> c.chassisFans[zone].fanConnector[i] == PcieCfg.Hex2(value[2 * i + 2..2 * i + 4])
  {
    ChassisFansHeader(value);
    var cnt := PcieCfg.Hex2(value[0..2]);
    ParseFansPairs(value, 1, cnt);
    var r := ParseFans(value, 2, cnt);
    forall i | 0 <= i < cnt
      ensures r.1[i] == PcieCfg.Hex2(value[2 * i + 2..2 * i + 4])
    {
      assert 2 * (1 + i) == 2 * i + 2;
    }
    var zone := GetZoneName(instance);
    var c := config.(chassisFans := config.chassisFans[zone := config.Zone(zone).(fanConnector := r.1)]);
    assert SetOptionResult(config, ChassisFans, instance, value) == (r.0, c);
  }

  /** The header of a well-formed chassisFans option: its first two hex
    * digits are the count. */
  lemma ChassisFansHeader(value: string)
    requires |value| >= 2 && PcieCfg.IsHexDigit(value[0]) && PcieCfg.IsHexDigit(value[1])
    requires |value| >= 2 * (PcieCfg.Hex2(value[0..2]) + 1)
    ensures FromCharsHex(value[0..2]) == Parsed(true, PcieCfg.Hex2(value[0..2]), 2)
    ensures FanCount(value) == Some(PcieCfg.Hex2(value[0..2]))
  {
    FromCharsHexPair(value[0..2]);
    var cnt := PcieCfg.Hex2(value[0..2]);
    assert SizeT((cnt as int + 1) * 2) == (cnt as int + 1) * 2;
  }

  /** Reading `count` hex pairs from an even position. */
  lemma {:induction false} ParseFansPairs(value: string, k: nat, count: nat)
    requires 2 * (k + count) <= |value|
    requires forall i :: 0 <= i < |value| ==> PcieCfg.IsHexDigit(value[i])
    ensures var r := ParseFans(value, 2 * k, count);
      r.0 && |r.1| == count &&
      forall i :: 0 <= i < count ==> r.1[i] == PcieCfg.Hex2(value[2 * (k + i)..2 * (k + i) + 2])
    decreases count
  {
    if count > 0 {
      var w := value[2 * k..2 * k + 2];
      FromCharsHexPair(w);
      ParseFansPairs(value, k + 1, count - 1);
      var rest := ParseFans(value, 2 * (k + 1), count - 1);
      var r := ParseFans(value, 2 * k, count);
      assert r.1 == [PcieCfg.Hex2(w)] + rest.1;
      forall i | 0 <= i < count
        ensures r.1[i] == PcieCfg.Hex2(value[2 * (k + i)..2 * (k + i) + 2])
      {
        if i > 0 {
          assert r.1[i] == rest.1[i - 1];
          assert 2 * (k + i) == 2 * ((k + 1) + (i - 1));
        }
      }
    }
  }

  /** A chassisFans option whose header is refused (too short, no
    * count, or fewer characters than the count needs) fails and changes
    * nothing. */
  lemma ChassisFansRefused(config: HWManagerData, instance: int, value: string)
    requires FanCount(value).None?
    ensures SetOptionResult(config, ChassisFans, instance, value) == (false, config)
  {
  }

  /** A failed chassisFans option whose header was accepted leaves the
    * zone with the numbers read before the failing window. */
  lemma ChassisFansPartial(config: HWManagerData, instance: int, value: string)
    requires FanCount(value).Some?
    ensures var (ok, c) := SetOptionResult(config, ChassisFans, instance, value);
      var zone := GetZoneName(instance);
      var cnt := FanCount(value).value;
      c == config.(chassisFans := config.chassisFans[zone := config.Zone(zone).(fanConnector := c.chassisFans[zone].fanConnector)]) &&
      |c.chassisFans[zone].fanConnector| <= (if cnt < 0 then 0 else cnt) &&
      (ok <==> ParseFans(value, FromCharsHex(value[0..2]).next, if cnt < 0 then 0 else cnt).0) &&
      (ok ==> |c.chassisFans[zone].fanConnector| == (if cnt < 0 then 0 else cnt))
  {
  }

  /** The minimum speed option needs two characters; a speed in 5..100
    * is stored for the zone, any other is ignored and still accepted. */
  lemma PidZoneMinSpeedOption(config: HWManagerData, instance: int, value: string)
    ensures var (ok, c) := SetOptionResult(config, PidZoneMinSpeed, instance, value);
      var zone := GetZoneName(instance);
      (ok <==> |value| == 2) &&
      (c == config || (zone in c.chassisFans && 5 <= c.chassisFans[zone].fanMinSpeed <= 100 &&
        c == config.(chassisFans := config.chassisFans[zone := config.Zone(zone).(fanMinSpeed := c.chassisFans[zone].fanMinSpeed)])))
  {
    if |value| == 2 {
      var p := FromCharsHex(value);
      var speed := if p.ok then p.value else 0;
      if 5 <= speed <= 100 {
        var zone := GetZoneName(instance);
        var c := SetOptionResult(config, PidZoneMinSpeed, instance, value).1;
        assert c.chassisFans[zone].fanMinSpeed == speed;
      }
    }
  }

  /** The MAC address, PCIe bifurcation and `none` options are not the
    * HW manager's: they are refused and change nothing. */
  lemma OtherOptionsRefused(config: HWManagerData, optType: OptionType, instance: int, value: string)
    requires optType in {MacAddr, PcieBifurcation, NoOption}
    ensures SetOptionResult(config, optType, instance, value) == (false, config)
  {
  }

  // ---------------------------------------------------------------------
  // Fan objects
  // ---------------------------------------------------------------------

  const SysFanPrefixName := "Sys_Fan"
  const MaxErrorAttempts := 20

  /** A fan object on D-Bus (the model keeps the properties the manager
    * chooses). */
  datatype FanObject = FanObject(name: string, prettyName: string, model: string, partNumber: string,
    zone: string, connector: nat)

  /** A chassis object on D-Bus. */
  datatype ChassisObject = ChassisObject(productName: string, model: string, partNumber: string, serial: string)

  /** Whether `p` occurs in `s` at position `i`. */
  predicate OccursAt(s: string, p: string, i: nat)
  {
    i + |p| <= |s| && s[i..i + |p|] == p
  }

  /** `s.find(p) != npos`. */
  predicate Contains(s: string, p: string)
  {
    exists i: nat :: i <= |s| && OccursAt(s, p, i)
  }

  predicate IsSystemFan(f: FanObject)
  {
    Contains(f.name, SysFanPrefixName)
  }

  /** The fans kept by an erase loop that drops every fan whose being a
    * system fan differs from `system`, in their order. */
  function Keep(fans: seq<FanObject>, system: bool): (r: seq<FanObject>)
    ensures |r| <= |fans|
  {
    if fans == [] then []
    else (if IsSystemFan(fans[0]) == system then [fans[0]] else []) + Keep(fans[1..], system)
  }

  /** Each fan is kept by exactly one of the two loops: the system fans and
    * the others together are the fans. */
  lemma {:induction false} KeepPartition(fans: seq<FanObject>)
    ensures multiset(Keep(fans, true)) + multiset(Keep(fans, false)) == multiset(fans)
    ensures forall f :: f in Keep(fans, true) <==> f in fans && IsSystemFan(f)
    ensures forall f :: f in Keep(fans, false) <==> f in fans && !IsSystemFan(f)
  {
    KeepCounts(fans);
    KeepMembers(fans, true);
    KeepMembers(fans, false);
  }

  lemma {:induction false} KeepCounts(fans: seq<FanObject>)
    ensures multiset(Keep(fans, true)) + multiset(Keep(fans, false)) == multiset(fans)
  {
    if fans != [] {
      KeepCounts(fans[1..]);
      var f, rest := fans[0], fans[1..];
      assert fans == [f] + rest;
      var keepT, keepF := Keep(rest, true), Keep(rest, false);
      if IsSystemFan(f) {
        assert Keep(fans, true) == [f] + keepT && Keep(fans, false) == keepF;
        assert multiset([f] + keepT) == multiset{f} + multiset(keepT);
      } else {
        assert Keep(fans, true) == keepT && Keep(fans, false) == [f] + keepF;
        assert multiset([f] + keepF) == multiset{f} + multiset(keepF);
      }
      assert multiset(fans) == multiset{f} + multiset(rest);
    }
  }

  lemma {:induction false} KeepMembers(fans: seq<FanObject>, system: bool)
    ensures forall f :: f in Keep(fans, system) <==> f in fans && IsSystemFan(f) == system
  {
    if fans != [] {
      KeepMembers(fans[1..], system);
      assert fans == [fans[0]] + fans[1..];
    }
  }

  lemma {:induction false} KeepAppend(a: seq<FanObject>, b: seq<FanObject>, system: bool)
    ensures Keep(a + b, system) == Keep(a, system) + Keep(b, system)
  {
    if a != [] {
      KeepAppend(a[1..], b, system);
      assert (a + b)[0] == a[0] && (a + b)[1..] == a[1..] + b;
      var h := if IsSystemFan(a[0]) == system then [a[0]] else [];
      assert Keep(a + b, system) == h + (Keep(a[1..], system) + Keep(b, system));
    } else {
      assert a + b == b;
    }
  }

  /** Erasing twice is erasing once. */
  lemma {:induction false} KeepIdempotent(fans: seq<FanObject>, system: bool)
    ensures Keep(Keep(fans, system), system) == Keep(fans, system)
  {
    if fans != [] {
      KeepIdempotent(fans[1..], system);
      KeepAppend(if IsSystemFan(fans[0]) == system then [fans[0]] else [], Keep(fans[1..], system), system);
    }
  }

  /** One step of an erase loop at position `i`: erasing a fan of the other
    * kind, or stepping over one of the kept kind, keeps what the loop
    * will have kept. */
  lemma EraseStep(fs: seq<FanObject>, i: nat, system: bool)
    requires i < |fs|
    ensures IsSystemFan(fs[i]) != system ==>
      var erased := fs[..i] + fs[i + 1..];
      erased[..i] + Keep(erased[i..], system) == fs[..i] + Keep(fs[i..], system)
    ensures IsSystemFan(fs[i]) == system ==>
      fs[..i + 1] + Keep(fs[i + 1..], system) == fs[..i] + Keep(fs[i..], system)
  {
    assert fs[i..] == [fs[i]] + fs[i + 1..];
    var erased := fs[..i] + fs[i + 1..];
    assert erased[..i] == fs[..i] && erased[i..] == fs[i + 1..];
    assert fs[..i + 1] == fs[..i] + [fs[i]];
  }

  /** A list made only of fans of the kept kind is kept whole. */
  lemma {:induction false} KeepAll(fans: seq<FanObject>, system: bool)
    requires forall i :: 0 <= i < |fans| ==> IsSystemFan(fans[i]) == system
    ensures Keep(fans, system) == fans && Keep(fans, !system) == []
  {
    if fans != [] {
      KeepAll(fans[1..], system);
    }
  }

  // ---------------------------------------------------------------------
  // Fan features and detection
  // ---------------------------------------------------------------------

  datatype FanState = Uninit | Init | Detect | Normal

  /** What the manager remembers about a system fan connector. */
  datatype FanFeature = FanFeature(partNumber: string, prettyName: string, fanType: FanType,
    initialPwm: nat, maxInletRpm: nat, maxOutletRpm: nat)

  /** The feature `operator[]` inserts. */
  const DefaultFeature := FanFeature("", "", Unknown, 0, 0, 0)

  function FeatureOf(features: map<nat, FanFeature>, conIndex: nat): FanFeature
  {
    if conIndex in features then features[conIndex] else DefaultFeature
  }

  /** The hwmon directory of the PWM controller, as found at the time of a
    * call: whether it exists, and the values of its `pwmN` and
    * `fanN_input` files (a missing file reads as 0). */
  datatype Hwmon = Hwmon(found: bool, pwm: map<nat, nat>, tach: map<nat, nat>)

  function ReadFile(files: map<nat, nat>, n: nat): nat
  {
    if n in files then files[n] else 0
  }

  /** The fan-detection part of the manager's state: the state, the
    * attempts counter, the pending detection timer's delay, the fan
    * features, the published fans and the PWM values written to hwmon. */
  datatype FanDetection = FanDetection(state: FanState, attempts: nat, timer: Option<nat>,
    features: map<nat, FanFeature>, fans: seq<FanObject>, pwmWrites: seq<(nat, nat)>)

  /** `detectFansDelayed`: the attempt is counted; past the limit the
    * detection gives up and works normally, otherwise the timer is
    * (re)armed. */
  function Delayed(d: FanDetection, delaySecs: nat): (r: FanDetection)
    ensures r.attempts == d.attempts + 1
    ensures r.attempts > MaxErrorAttempts ==> r == d.(attempts := r.attempts, state := Normal)
    ensures r.attempts <= MaxErrorAttempts ==> r == d.(attempts := r.attempts, timer := Some(delaySecs))
  {
    if d.attempts + 1 > MaxErrorAttempts then d.(attempts := d.attempts + 1, state := Normal)
    else d.(attempts := d.attempts + 1, timer := Some(delaySecs))
  }

  /** One system connector probed by `processSystemFans`: in the init
    * state the initial PWM and the tachometers are read, and a fan whose
    * rotors both turn is driven at full speed; in the detect state such a
    * fan's tachometers are read again at full speed and its initial PWM
    * restored. The feature is created if it was missing. */
  function ProbeStep(d: FanDetection, e: (nat, FanConnector), hw: Hwmon): FanDetection
  {
    var (conIndex, c) := e;
    if c.kind != SystemConnector then d
    else
      var fan := FeatureOf(d.features, conIndex);
      var pwmFile := c.pwmIndex + 1;
      match d.state
      case Init =>
        var f := fan.(initialPwm := ReadFile(hw.pwm, pwmFile),
                      maxInletRpm := ReadFile(hw.tach, c.tachIndexA + 1),
                      maxOutletRpm := ReadFile(hw.tach, c.tachIndexB + 1));
        d.(features := d.features[conIndex := f],
           pwmWrites := d.pwmWrites + if f.maxInletRpm > 0 && f.maxOutletRpm > 0 then [(pwmFile, 255)] else [])
      case Detect =>
        if fan.maxInletRpm > 0 && fan.maxOutletRpm > 0 then
          var f := fan.(maxInletRpm := ReadFile(hw.tach, c.tachIndexA + 1),
                        maxOutletRpm := ReadFile(hw.tach, c.tachIndexB + 1));
          d.(features := d.features[conIndex := f], pwmWrites := d.pwmWrites + [(pwmFile, fan.initialPwm)])
        else d.(features := d.features[conIndex := fan])
      case _ => d.(features := d.features[conIndex := fan])
  }

  /** The connectors probed in order. */
  function ProbeAll(d: FanDetection, conns: seq<(nat, FanConnector)>, hw: Hwmon): FanDetection
  {
    if conns == [] then d else ProbeStep(ProbeAll(d, conns[..|conns| - 1], hw), conns[|conns| - 1], hw)
  }

  /** The probe loop of `processSystemFans` over the platform's
    * connectors, from the detection state `d`. */
  method ProbeConnectors(d: FanDetection, conns: seq<(nat, FanConnector)>, hw: Hwmon)
    returns (features: map<nat, FanFeature>, writes: seq<(nat, nat)>)
    ensures d.(features := features, pwmWrites := writes) == ProbeAll(d, conns, hw)
  {
    features, writes := d.features, d.pwmWrites;
    var i := 0;
    while i < |conns|
      invariant 0 <= i <= |conns|
      invariant d.(features := features, pwmWrites := writes) == ProbeAll(d, conns[..i], hw)
    {
      assert conns[..i + 1][..i] == conns[..i];
      var (conIndex, c) := conns[i];
      if c.kind == SystemConnector {
        var fan := FeatureOf(features, conIndex);
        var pwmFile := c.pwmIndex + 1;
        match d.state {
          case Init =>
            fan := fan.(initialPwm := ReadFile(hw.pwm, pwmFile));
            fan := fan.(maxInletRpm := ReadFile(hw.tach, c.tachIndexA + 1));
            fan := fan.(maxOutletRpm := ReadFile(hw.tach, c.tachIndexB + 1));
            if fan.maxInletRpm > 0 && fan.maxOutletRpm > 0 {
              writes := writes + [(pwmFile, 255)];
            }
          case Detect =>
            if fan.maxInletRpm > 0 && fan.maxOutletRpm > 0 {
              fan := fan.(maxInletRpm := ReadFile(hw.tach, c.tachIndexA + 1));
              fan := fan.(maxOutletRpm := ReadFile(hw.tach, c.tachIndexB + 1));
              writes := writes + [(pwmFile, fan.initialPwm)];
            }
          case _ =>
        }
        features := features[conIndex := fan];
      }
      i := i + 1;
    }
    assert conns[..i] == conns;
  }

  /** `processSystemFans`: fails without a detection table or without the
    * hwmon directory; otherwise probes every system connector. */
  function SystemFans(d: FanDetection, desc: ProductDescription, hw: Hwmon): (bool, FanDetection)
  {
    if desc.detectionFanTable == [] || !hw.found then (false, d)
    else (true, ProbeAll(d, desc.fans, hw))
  }

  /** The feature `updateSystemFanFeatures` gives a system connector: the
    * identified module's, when it is known and named; otherwise the
    * platform's part number and a generic name, keeping the type. */
  function UpdatedFeature(fan: FanFeature, c: FanConnector, desc: ProductDescription): FanFeature
  {
    var info := FanInfoByRPM(desc.detectionFanTable, fan.maxInletRpm, fan.maxOutletRpm);
    if info.fanType != Unknown && info.partNumber != "" && info.prettyName != "" then
      fan.(partNumber := info.partNumber, prettyName := info.prettyName, fanType := info.fanType)
    else fan.(partNumber := desc.sysFanPN, prettyName := "System Fan " + NatToString(c.fanIndex))
  }

  function UpdateAll(features: map<nat, FanFeature>, conns: seq<(nat, FanConnector)>, desc: ProductDescription): map<nat, FanFeature>
  {
    if conns == [] then features
    else
      var f := UpdateAll(features, conns[..|conns| - 1], desc);
      var (conIndex, c) := conns[|conns| - 1];
      if c.kind != SystemConnector then f else f[conIndex := UpdatedFeature(FeatureOf(f, conIndex), c, desc)]
  }

  /** The fan object `publishSystemFans` creates for a system connector. */
  function SystemFanObject(fan: FanFeature, c: FanConnector, desc: ProductDescription): FanObject
  {
    var idx := NatToString(c.fanIndex);
    FanObject(SysFanPrefixName + idx,
              if fan.prettyName != "" then fan.prettyName else "System Fan " + idx,
              desc.productName + " System Fan",
              if fan.partNumber != "" then fan.partNumber else desc.sysFanPN,
              c.zone, c.connector)
  }

  /** The system fan objects, in connector order, and the features with a
    * default created for every system connector that had none. */
  function PublishAll(features: map<nat, FanFeature>, conns: seq<(nat, FanConnector)>, desc: ProductDescription): (map<nat, FanFeature>, seq<FanObject>)
  {
    if conns == [] then (features, [])
    else
      var (f, objs) := PublishAll(features, conns[..|conns| - 1], desc);
      var (conIndex, c) := conns[|conns| - 1];
      if c.kind != SystemConnector then (f, objs)
      else (f[conIndex := FeatureOf(f, conIndex)], objs + [SystemFanObject(FeatureOf(f, conIndex), c, desc)])
  }

  /** `publishSystemFans`: nothing without a product; otherwise the system
    * fans are replaced by one per system connector. */
  function PublishSystem(d: FanDetection, desc: Option<ProductDescription>): FanDetection
  {
    match desc
    case None => d
    case Some(p) =>
      var (features, objs) := PublishAll(d.features, p.fans, p);
      d.(features := features, fans := Keep(d.fans, false) + objs)
  }

  /** `processDetectState`: one step of the fan detection. */
  function DetectStep(d: FanDetection, desc: Option<ProductDescription>, hw: Hwmon): FanDetection
  {
    if d.state == Normal then d
    else if desc.None? then Delayed(d, 5)
    else
      var d1 := if d.state == Uninit then d
        else
          var (ok, p) := SystemFans(d, desc.value, hw);
          if ok then p else p.(state := Normal);
      var d2 := match d1.state
        case Uninit => if |d1.features| > 0 then d1.(state := Normal) else d1
        case Init => Delayed(d1.(state := Detect), 5)
        case Detect => d1.(features := UpdateAll(d1.features, desc.value.fans, desc.value), state := Normal)
        case Normal => d1;
      if d2.state == Normal then PublishSystem(d2, desc) else d2
  }

  // ---------------------------------------------------------------------
  // Properties of the detection
  // ---------------------------------------------------------------------

  /** Probing changes only the features and the PWM writes. */
  lemma {:induction false} ProbeKeeps(d: FanDetection, conns: seq<(nat, FanConnector)>, hw: Hwmon)
    ensures var r := ProbeAll(d, conns, hw);
      r == d.(features := r.features, pwmWrites := r.pwmWrites)
    decreases |conns|
  {
    if conns != [] {
      ProbeKeeps(d, conns[..|conns| - 1], hw);
    }
  }

  /** In the init state every PWM written drives a fan at full speed. */
  lemma {:induction false} ProbeInitFullSpeed(d: FanDetection, conns: seq<(nat, FanConnector)>, hw: Hwmon)
    requires d.state == Init
    ensures var r := ProbeAll(d, conns, hw);
      |r.pwmWrites| >= |d.pwmWrites| && r.pwmWrites[..|d.pwmWrites|] == d.pwmWrites &&
      forall i :: |d.pwmWrites| <= i < |r.pwmWrites| ==> r.pwmWrites[i].1 == 255
    decreases |conns|
  {
    if conns != [] {
      ProbeInitFullSpeed(d, conns[..|conns| - 1], hw);
      ProbeKeeps(d, conns[..|conns| - 1], hw);
    }
  }

  /** The detection's order of states. */
  function Rank(s: FanState): nat
  {
    match s
    case Uninit => 0
    case Init => 1
    case Detect => 2
    case Normal => 3
  }

  /** The normal state is final; otherwise a step never goes back, never
    * lowers the attempts counter, and without a product only counts an
    * attempt. */
  lemma DetectStepMonotone(d: FanDetection, desc: Option<ProductDescription>, hw: Hwmon)
    ensures var r := DetectStep(d, desc, hw);
      Rank(r.state) >= Rank(d.state) && r.attempts >= d.attempts &&
      (d.state == Normal ==> r == d) &&
      (d.state != Normal && desc.None? ==> r == Delayed(d, 5))
  {
    if d.state != Normal && desc.Some? && d.state != Uninit {
      ProbeKeeps(d, desc.value.fans, hw);
    }
  }

  /** The transitions with a product: from uninit to normal exactly when
    * features were loaded; from init to detect with the timer armed for
    * five seconds, while attempts remain; from detect to normal; and to
    * normal whenever the system fans cannot be probed. */
  lemma DetectTransitions(d: FanDetection, desc: Option<ProductDescription>, hw: Hwmon)
    requires desc.Some?
    ensures var r := DetectStep(d, desc, hw);
      var probed := SystemFans(d, desc.value, hw).0;
      (d.state == Uninit ==> (r.state == Normal <==> |d.features| > 0)) &&
      (d.state == Init && probed && d.attempts < MaxErrorAttempts ==>
        r.state == Detect && r.timer == Some(5) && r.attempts == d.attempts + 1) &&
      (d.state == Detect ==> r.state == Normal) &&
      (d.state in {Init, Detect} && !probed ==> r.state == Normal)
  {
    if d.state != Uninit && d.state != Normal {
      ProbeKeeps(d, desc.value.fans, hw);
    }
  }

  /** The detection steps of a manager that never learns its product. */
  function StepsWithoutProduct(d: FanDetection, n: nat, hw: Hwmon): FanDetection
    decreases n
  {
    if n == 0 then d else StepsWithoutProduct(DetectStep(d, None, hw), n - 1, hw)
  }

  /** Without a product the detection gives up after at most 21 attempts
    * and goes on in the normal state. */
  lemma {:induction false} NoProductGivesUp(d: FanDetection, n: nat, hw: Hwmon)
    requires n > 0 && d.attempts + n > MaxErrorAttempts
    ensures StepsWithoutProduct(d, n, hw).state == Normal
    decreases n
  {
    DetectStepMonotone(d, None, hw);
    var next := DetectStep(d, None, hw);
    if d.state != Normal {
      if n > 1 && next.state != Normal {
        NoProductGivesUp(next, n - 1, hw);
      } else {
        NormalStays(next, n - 1, hw);
      }
    } else {
      NormalStays(d, n, hw);
    }
  }

  lemma {:induction false} NormalStays(d: FanDetection, n: nat, hw: Hwmon)
    requires d.state == Normal
    ensures StepsWithoutProduct(d, n, hw) == d
    decreases n
  {
    if n > 0 {
      NormalStays(d, n - 1, hw);
    }
  }

  // ---------------------------------------------------------------------
  // Properties of the fan features and the system fans
  // ---------------------------------------------------------------------

  /** After `updateSystemFanFeatures` every system connector has a
    * feature with a name and with the identified module's part number or
    * the platform's; the features of other connectors are unchanged. */
  lemma {:induction false} UpdateAllNamed(features: map<nat, FanFeature>, conns: seq<(nat, FanConnector)>, desc: ProductDescription)
    ensures var r := UpdateAll(features, conns, desc);
      (forall i :: 0 <= i < |conns| && conns[i].1.kind == SystemConnector ==>
        conns[i].0 in r && r[conns[i].0].prettyName != "" &&
        (r[conns[i].0].partNumber == desc.sysFanPN || r[conns[i].0].partNumber != "")) &&
      (forall k :: (forall i :: 0 <= i < |conns| ==> conns[i].0 != k || conns[i].1.kind != SystemConnector) ==>
        FeatureOf(r, k) == FeatureOf(features, k))
    decreases |conns|
  {
    if conns != [] {
      var init := conns[..|conns| - 1];
      UpdateAllNamed(features, init, desc);
      var r := UpdateAll(features, conns, desc);
      forall i | 0 <= i < |conns| && conns[i].1.kind == SystemConnector
        ensures conns[i].0 in r && r[conns[i].0].prettyName != "" &&
          (r[conns[i].0].partNumber == desc.sysFanPN || r[conns[i].0].partNumber != "")
      {
        if i < |conns| - 1 {
          assert conns[i] == init[i];
        }
      }
      forall k | (forall i :: 0 <= i < |conns| ==> conns[i].0 != k || conns[i].1.kind != SystemConnector)
        ensures FeatureOf(r, k) == FeatureOf(features, k)
      {
        assert forall i :: 0 <= i < |init| ==> init[i] == conns[i];
      }
    }
  }

  /** The system fan objects of the connectors, one per system connector,
    * each from the connector's feature. */
  function SystemObjects(features: map<nat, FanFeature>, conns: seq<(nat, FanConnector)>, desc: ProductDescription): seq<FanObject>
  {
    if conns == [] then []
    else
      var (conIndex, c) := conns[|conns| - 1];
      SystemObjects(features, conns[..|conns| - 1], desc) +
        if c.kind != SystemConnector then [] else [SystemFanObject(FeatureOf(features, conIndex), c, desc)]
  }

  /** Publishing only adds default features, so each object is made from
    * the feature the connector had before. */
  lemma {:induction false} PublishAllObjects(features: map<nat, FanFeature>, conns: seq<(nat, FanConnector)>, desc: ProductDescription)
    ensures var (f, objs) := PublishAll(features, conns, desc);
      objs == SystemObjects(features, conns, desc) &&
      features.Keys <= f.Keys && (forall k :: FeatureOf(f, k) == FeatureOf(features, k)) &&
      forall i :: 0 <= i < |conns| && conns[i].1.kind == SystemConnector ==> conns[i].0 in f
    decreases |conns|
  {
    if conns != [] {
      var init := conns[..|conns| - 1];
      PublishAllObjects(features, init, desc);
      var (f, objs) := PublishAll(features, conns, desc);
      forall i | 0 <= i < |conns| && conns[i].1.kind == SystemConnector
        ensures conns[i].0 in f
      {
        if i < |conns| - 1 {
          assert conns[i] == init[i];
        }
      }
    }
  }

  /** Objects made from features that agree are the same. */
  lemma {:induction false} SystemObjectsAgree(f1: map<nat, FanFeature>, f2: map<nat, FanFeature>,
                                                conns: seq<(nat, FanConnector)>, desc: ProductDescription)
    requires forall k :: FeatureOf(f1, k) == FeatureOf(f2, k)
    ensures SystemObjects(f1, conns, desc) == SystemObjects(f2, conns, desc)
    decreases |conns|
  {
    if conns != [] {
      SystemObjectsAgree(f1, f2, conns[..|conns| - 1], desc);
    }
  }

  /** Every object made for a system connector is a system fan. */
  lemma {:induction false} SystemObjectsAreSystemFans(features: map<nat, FanFeature>, conns: seq<(nat, FanConnector)>, desc: ProductDescription)
    ensures forall i :: 0 <= i < |SystemObjects(features, conns, desc)| ==> IsSystemFan(SystemObjects(features, conns, desc)[i])
    decreases |conns|
  {
    if conns != [] {
      SystemObjectsAreSystemFans(features, conns[..|conns| - 1], desc);
      var (conIndex, c) := conns[|conns| - 1];
      if c.kind == SystemConnector {
        var o := SystemFanObject(FeatureOf(features, conIndex), c, desc);
        assert OccursAt(o.name, SysFanPrefixName, 0);
      }
    }
  }

  /** Every fan an erase loop keeps is of the kept kind. */
  lemma {:induction false} KeepKind(fans: seq<FanObject>, system: bool)
    ensures forall i :: 0 <= i < |Keep(fans, system)| ==> IsSystemFan(Keep(fans, system)[i]) == system
  {
    if fans != [] {
      KeepKind(fans[1..], system);
    }
  }

  /** Other fans followed by system fans split back into the two. */
  lemma KeepJoin(others: seq<FanObject>, system: seq<FanObject>)
    requires forall i :: 0 <= i < |others| ==> !IsSystemFan(others[i])
    requires forall i :: 0 <= i < |system| ==> IsSystemFan(system[i])
    ensures Keep(others + system, false) == others && Keep(others + system, true) == system
  {
    KeepAll(others, false);
    KeepAll(system, true);
    KeepAppend(others, system, false);
    KeepAppend(others, system, true);
  }

  /** `publishSystemFans` keeps the other fans, in order, and replaces the
    * system fans by exactly one object per system connector. */
  lemma PublishSystemReplaces(d: FanDetection, p: ProductDescription)
    ensures var r := PublishSystem(d, Some(p));
      Keep(r.fans, false) == Keep(d.fans, false) &&
      Keep(r.fans, true) == SystemObjects(d.features, p.fans, p)
  {
    PublishAllObjects(d.features, p.fans, p);
    SystemObjectsAreSystemFans(d.features, p.fans, p);
    KeepKind(d.fans, false);
    KeepJoin(Keep(d.fans, false), SystemObjects(d.features, p.fans, p));
  }

  /** Publishing the system fans again changes nothing. */
  lemma PublishSystemIdempotent(d: FanDetection, p: ProductDescription)
    ensures PublishSystem(PublishSystem(d, Some(p)), Some(p)) == PublishSystem(d, Some(p))
  {
    var r := PublishSystem(d, Some(p));
    PublishSystemReplaces(d, p);
    PublishAllObjects(d.features, p.fans, p);
    PublishAllObjects(r.features, p.fans, p);
    SystemObjectsAgree(r.features, d.features, p.fans, p);
    PublishAllKeepsFull(r.features, p.fans, p);
    SystemObjectsAreSystemFans(d.features, p.fans, p);
    KeepKind(d.fans, false);
    KeepJoin(Keep(d.fans, false), SystemObjects(d.features, p.fans, p));
  }

  /** Publishing with a feature for every system connector adds none. */
  lemma {:induction false} PublishAllKeepsFull(features: map<nat, FanFeature>, conns: seq<(nat, FanConnector)>, desc: ProductDescription)
    requires forall i :: 0 <= i < |conns| && conns[i].1.kind == SystemConnector ==> conns[i].0 in features
    ensures PublishAll(features, conns, desc).0 == features
    decreases |conns|
  {
    if conns != [] {
      var init := conns[..|conns| - 1];
      assert forall i :: 0 <= i < |init| ==> init[i] == conns[i];
      PublishAllKeepsFull(features, init, desc);
      var (conIndex, c) := conns[|conns| - 1];
      if c.kind == SystemConnector {
        assert features[conIndex := features[conIndex]] == features;
      }
    }
  }

  // ---------------------------------------------------------------------
  // Publishing the configuration
  // ---------------------------------------------------------------------

  /** `std::string`'s ordering, the order of the zone map. */
  predicate StrLe(a: string, b: string)
    decreases |a|
  {
    a == [] || (b != [] && (a[0] < b[0] || (a[0] == b[0] && StrLe(a[1..], b[1..]))))
  }

  lemma {:induction false} StrLeTotal(a: string, b: string)
    ensures StrLe(a, b) || StrLe(b, a)
    decreases |a|
  {
    if a != [] && b != [] && a[0] == b[0] {
      StrLeTotal(a[1..], b[1..]);
    }
  }

  lemma {:induction false} StrLeAntisymmetric(a: string, b: string)
    requires StrLe(a, b) && StrLe(b, a)
    ensures a == b
    decreases |a|
  {
    if a != [] && b != [] {
      StrLeAntisymmetric(a[1..], b[1..]);
      assert a == [a[0]] + a[1..] && b == [b[0]] + b[1..];
    }
  }

  lemma {:induction false} StrLeTransitive(a: string, b: string, c: string)
    requires StrLe(a, b) && StrLe(b, c)
    ensures StrLe(a, c)
    decreases |a|
  {
    if a != [] && b != [] && c != [] && a[0] == b[0] && b[0] == c[0] {
      StrLeTransitive(a[1..], b[1..], c[1..]);
    }
  }

  /** The first zone name of a non-empty set in the map's order. */
  ghost function FirstZone(s: set<string>): (m: string)
    requires s != {}
    ensures m in s && forall j :: j in s ==> StrLe(m, j)
    decreases |s|
  {
    var x :| x in s;
    if s == {x} then
      assert forall j :: j in s ==> j == x;
      StrLeTotal(x, x);
      x
    else
      var r := FirstZone(s - {x});
      assert forall j :: j in s ==> j == x || j in s - {x};
      StrLeTotal(x, r);
      StrLeTotal(x, x);
      if StrLe(x, r) then
        assert forall j :: j in s - {x} ==> StrLe(r, j) ==> StrLe(x, j) by {
          forall j | j in s - {x} && StrLe(r, j)
            ensures StrLe(x, j)
          {
            StrLeTransitive(x, r, j);
          }
        }
        x
      else
        r
  }

  /** The zone names of a set in the map's order. */
  ghost function SortedZones(s: set<string>): seq<string>
    decreases |s|
  {
    if s == {} then [] else
      var m := FirstZone(s);
      [m] + SortedZones(s - {m})
  }

  /** The order visits every zone once. */
  lemma {:induction false} SortedZonesMembers(s: set<string>)
    ensures forall z :: z in SortedZones(s) <==> z in s
    ensures |SortedZones(s)| == |s|
    decreases |s|
  {
    if s != {} {
      SortedZonesMembers(s - {FirstZone(s)});
    }
  }

  /** The CPU fan objects `publish` creates: one per CPU connector whose
    * CPU is present, while active CPU cooling is configured. */
  function CpuFans(config: HWManagerData, p: ProductDescription, conns: seq<(nat, FanConnector)>): seq<FanObject>
  {
    if conns == [] then []
    else
      var c := conns[|conns| - 1].1;
      var idx := NatToString(c.fanIndex);
      CpuFans(config, p, conns[..|conns| - 1]) +
        if c.kind == CpuConnector && config.haveCPUFans && c.fanIndex in config.cpuPresence && config.cpuPresence[c.fanIndex] then
          [FanObject("CPU" + idx + "_Fan", "CPU" + idx + " Fan", p.productName + " CPU Fan", p.cpuFanPN, c.zone, c.connector)]
        else []
  }

  /** The platform's connector with index `k` (`fans.find`). */
  function FindConnector(conns: seq<(nat, FanConnector)>, k: nat): (r: Option<FanConnector>)
    ensures r.Some? ==> exists i :: 0 <= i < |conns| && conns[i] == (k, r.value)
    ensures r.None? ==> forall i :: 0 <= i < |conns| ==> conns[i].0 != k
  {
    if conns == [] then None
    else if conns[0].0 == k then Some(conns[0].1)
    else
      var r := FindConnector(conns[1..], k);
      assert forall i :: 1 <= i < |conns| ==> conns[i] == conns[1..][i - 1];
      r
  }

  /** The zone of every connector number of a zone. */
  function PairsOf(zone: string, connectors: seq<nat>): (r: seq<(string, nat)>)
    ensures |r| == |connectors| && forall i :: 0 <= i < |r| ==> r[i] == (zone, connectors[i])
  {
    seq(|connectors|, i requires 0 <= i < |connectors| => (zone, connectors[i]))
  }

  /** The (zone, connector number) pairs of the zones, in order. */
  function ZonePairs(zones: map<string, ChassisPIDZone>, names: seq<string>): seq<(string, nat)>
  {
    if names == [] then []
    else
      var z := names[|names| - 1];
      ZonePairs(zones, names[..|names| - 1]) + PairsOf(z, if z in zones then zones[z].fanConnector else [])
  }

  const ChassisFanPN := "CHSFAN000001A"

  /** The chassis fan objects for the pairs, and the next chassis fan
    * number: a connector number the platform lacks, a system connector,
    * and a CPU connector under active CPU cooling are skipped. */
  function ChassisFanObjects(config: HWManagerData, p: ProductDescription, pairs: seq<(string, nat)>): (r: (seq<FanObject>, nat))
    ensures r.1 == |r.0| + 1
  {
    if pairs == [] then ([], 1)
    else
      var (objs, n) := ChassisFanObjects(config, p, pairs[..|pairs| - 1]);
      var (zone, k) := pairs[|pairs| - 1];
      match FindConnector(p.fans, k)
      case None => (objs, n)
      case Some(c) =>
        if c.kind == SystemConnector || (c.kind == CpuConnector && config.haveCPUFans) then (objs, n)
        else
          var idx := NatToString(n);
          (objs + [FanObject("Cha_Fan" + idx, "Chassis Fan " + idx, p.productName + " Chassis Fan", ChassisFanPN,
                             zone, c.connector)], n + 1)
  }

  /** The fans `publish` adds for a product: the CPU fans, then the
    * chassis fans zone by zone. */
  ghost function PublishedFans(config: HWManagerData, p: ProductDescription): seq<FanObject>
  {
    CpuFans(config, p, p.fans) +
      ChassisFanObjects(config, p, ZonePairs(config.chassisFans, SortedZones(config.chassisFans.Keys))).0
  }

  /** A name without an 'S' is not a system fan's. */
  lemma NoSystemPrefix(name: string)
    requires forall i :: 0 <= i < |name| ==> name[i] != 'S'
    ensures !Contains(name, SysFanPrefixName)
  {
    forall i: nat | i <= |name|
      ensures !OccursAt(name, SysFanPrefixName, i)
    {
      if i + |SysFanPrefixName| <= |name| {
        assert name[i..i + |SysFanPrefixName|][0] == name[i];
      }
    }
  }

  /** The fans are named Cha_Fan1, Cha_Fan2, ... in order and none of
    * them is a system fan. */
  ghost predicate NumberedChassisFans(objs: seq<FanObject>)
  {
    forall i :: 0 <= i < |objs| ==> objs[i].name == "Cha_Fan" + NatToString(i + 1) && !IsSystemFan(objs[i])
  }

  /** The chassis fans are numbered 1, 2, ... in order and none of them is
    * a system fan. */
  lemma {:induction false} ChassisFansNumbered(config: HWManagerData, p: ProductDescription, pairs: seq<(string, nat)>)
    ensures NumberedChassisFans(ChassisFanObjects(config, p, pairs).0)
    decreases |pairs|
  {
    if pairs != [] {
      ChassisFansNumbered(config, p, pairs[..|pairs| - 1]);
      var (objs, n) := ChassisFanObjects(config, p, pairs[..|pairs| - 1]);
      var r := ChassisFanObjects(config, p, pairs).0;
      if |r| > |objs| {
        var name := "Cha_Fan" + NatToString(n);
        assert r == objs + [r[|objs|]] && r[|objs|].name == name;
        assert forall i :: 0 <= i < |name| ==> name[i] != 'S' by {
          forall i | 0 <= i < |name|
            ensures name[i] != 'S'
          {
            if i >= 7 {
              assert name[i] == NatToString(n)[i - 7];
            }
          }
        }
        NoSystemPrefix(name);
        forall i | 0 <= i < |r|
          ensures r[i].name == "Cha_Fan" + NatToString(i + 1) && !IsSystemFan(r[i])
        {
          if i < |objs| {
            assert r[i] == objs[i];
          }
        }
      } else {
        assert r == objs;
      }
    }
  }

  /** Every fan comes from a connector of the platform that is neither a
    * system connector nor a CPU connector under active CPU cooling, in a
    * zone of the listed pairs. */
  ghost predicate FromAllowedConnectors(config: HWManagerData, p: ProductDescription, pairs: seq<(string, nat)>, objs: seq<FanObject>)
  {
    forall i :: 0 <= i < |objs| ==> FromAllowedConnector(config, p, pairs, objs[i])
  }

  ghost predicate FromAllowedConnector(config: HWManagerData, p: ProductDescription, pairs: seq<(string, nat)>, fan: FanObject)
  {
    exists j, c ::
      0 <= j < |pairs| && FindConnector(p.fans, pairs[j].1) == Some(c) &&
      c.kind != SystemConnector && !(c.kind == CpuConnector && config.haveCPUFans) &&
      fan.zone == pairs[j].0 && fan.connector == c.connector
  }

  /** Every chassis fan comes from an allowed connector of the listed
    * pairs. */
  lemma {:induction false} ChassisFansAllowed(config: HWManagerData, p: ProductDescription, pairs: seq<(string, nat)>)
    ensures FromAllowedConnectors(config, p, pairs, ChassisFanObjects(config, p, pairs).0)
    decreases |pairs|
  {
    if pairs != [] {
      var init := pairs[..|pairs| - 1];
      ChassisFansAllowed(config, p, init);
      assert forall j :: 0 <= j < |init| ==> init[j] == pairs[j];
      var objs := ChassisFanObjects(config, p, init).0;
      var r := ChassisFanObjects(config, p, pairs).0;
      var last := |pairs| - 1;
      forall i | 0 <= i < |r|
        ensures FromAllowedConnector(config, p, pairs, r[i])
      {
        if i < |objs| {
          assert r[i] == objs[i];
          assert FromAllowedConnector(config, p, init, objs[i]);
          var j, c :|
            0 <= j < |init| && FindConnector(p.fans, init[j].1) == Some(c) &&
            c.kind != SystemConnector && !(c.kind == CpuConnector && config.haveCPUFans) &&
            objs[i].zone == init[j].0 && objs[i].connector == c.connector;
          assert init[j] == pairs[j];
        } else {
          var c := FindConnector(p.fans, pairs[last].1).value;
          assert r[i].zone == pairs[last].0 && r[i].connector == c.connector;
          assert FindConnector(p.fans, pairs[last].1) == Some(c);
        }
      }
    }
  }

  /** Every CPU fan is for a present CPU under active cooling, and none is
    * a system fan. */
  lemma {:induction false} CpuFansPresent(config: HWManagerData, p: ProductDescription, conns: seq<(nat, FanConnector)>)
    ensures var objs := CpuFans(config, p, conns);
      (objs != [] ==> config.haveCPUFans) &&
      forall i :: 0 <= i < |objs| ==> !IsSystemFan(objs[i])
    decreases |conns|
  {
    if conns != [] {
      CpuFansPresent(config, p, conns[..|conns| - 1]);
      var c := conns[|conns| - 1].1;
      var name := "CPU" + NatToString(c.fanIndex) + "_Fan";
      assert forall i :: 0 <= i < |name| ==> name[i] != 'S' by {
        forall i | 0 <= i < |name|
          ensures name[i] != 'S'
        {
          if 3 <= i < |name| - 4 {
            assert name[i] == NatToString(c.fanIndex)[i - 3];
          }
        }
      }
      NoSystemPrefix(name);
      var prev := CpuFans(config, p, conns[..|conns| - 1]);
      var tail: seq<FanObject> :=
        if c.kind == CpuConnector && config.haveCPUFans && c.fanIndex in config.cpuPresence && config.cpuPresence[c.fanIndex] then
          [FanObject(name, "CPU" + NatToString(c.fanIndex) + " Fan", p.productName + " CPU Fan", p.cpuFanPN, c.zone, c.connector)]
        else [];
      assert CpuFans(config, p, conns) == prev + tail;
      assert forall i :: 0 <= i < |tail| ==> !IsSystemFan(tail[i]);
    }
  }

  /** After `publish` the system fans are the ones before it and the other
    * fans are exactly the CPU and chassis fans of the configuration. */
  lemma PublishSplitsFans(config: HWManagerData, p: ProductDescription, old_fans: seq<FanObject>)
    ensures var fans := Keep(old_fans, true) + PublishedFans(config, p);
      Keep(fans, true) == Keep(old_fans, true) && Keep(fans, false) == PublishedFans(config, p)
  {
    var pairs := ZonePairs(config.chassisFans, SortedZones(config.chassisFans.Keys));
    CpuFansPresent(config, p, p.fans);
    ChassisFansNumbered(config, p, pairs);
    var added := PublishedFans(config, p);
    var cpu := CpuFans(config, p, p.fans);
    forall i | 0 <= i < |added|
      ensures !IsSystemFan(added[i])
    {
      if i < |cpu| {
        assert added[i] == cpu[i];
      } else {
        assert added[i] == ChassisFanObjects(config, p, pairs).0[i - |cpu|];
      }
    }
    KeepKind(old_fans, true);
    KeepAll(Keep(old_fans, true), true);
    KeepAll(added, false);
    KeepAppend(Keep(old_fans, true), added, true);
    KeepAppend(Keep(old_fans, true), added, false);
    KeepIdempotent(old_fans, true);
  }

  /** The CPU fan loop of `publish`. */
  method CreateCpuFans(config: HWManagerData, p: ProductDescription) returns (objs: seq<FanObject>)
    ensures objs == CpuFans(config, p, p.fans)
  {
    var conns := p.fans;
    objs := [];
    var i := 0;
    while i < |conns|
      invariant 0 <= i <= |conns|
      invariant objs == CpuFans(config, p, conns[..i])
    {
      assert conns[..i + 1][..i] == conns[..i];
      var c := conns[i].1;
      var fanIndexStr := NatToString(c.fanIndex);
      if c.kind == CpuConnector && config.haveCPUFans {
        if c.fanIndex in config.cpuPresence && config.cpuPresence[c.fanIndex] {
          objs := objs + [FanObject("CPU" + fanIndexStr + "_Fan", "CPU" + fanIndexStr + " Fan",
                                    p.productName + " CPU Fan", p.cpuFanPN, c.zone, c.connector)];
        }
      }
      i := i + 1;
    }
    assert conns[..i] == conns;
  }

  /** The connector loop of one zone in `publish`: it continues the chassis
    * fans `objs0`, numbered up to `index0`, with the zone's connectors. */
  method CreateZoneFans(config: HWManagerData, p: ProductDescription, zoneName: string, connectors: seq<nat>,
                        ghost before: seq<(string, nat)>, objs0: seq<FanObject>, index0: nat)
    returns (objs: seq<FanObject>, index: nat)
    requires (objs0, index0) == ChassisFanObjects(config, p, before)
    ensures (objs, index) == ChassisFanObjects(config, p, before + PairsOf(zoneName, connectors))
  {
    objs, index := objs0, index0;
    var j := 0;
    assert before + PairsOf(zoneName, connectors[..0]) == before;
    while j < |connectors|
      invariant 0 <= j <= |connectors|
      invariant (objs, index) == ChassisFanObjects(config, p, before + PairsOf(zoneName, connectors[..j]))
    {
      ghost var pairs := before + PairsOf(zoneName, connectors[..j]);
      assert (pairs + [(zoneName, connectors[j])])[..|pairs|] == pairs;
      assert before + PairsOf(zoneName, connectors[..j + 1]) == pairs + [(zoneName, connectors[j])];
      var connector := connectors[j];
      j := j + 1;
      var found := FindConnector(p.fans, connector);
      if found.None? {
        continue;
      }
      var c := found.value;
      if c.kind == SystemConnector {
        continue;
      }
      if c.kind == CpuConnector && config.haveCPUFans {
        continue;
      }
      var fanIndexStr := NatToString(index);
      objs := objs + [FanObject("Cha_Fan" + fanIndexStr, "Chassis Fan " + fanIndexStr,
                                p.productName + " Chassis Fan", ChassisFanPN, zoneName, c.connector)];
      index := index + 1;
    }
    assert connectors[..j] == connectors;
  }

  /** One zone of the zone loop: its connectors follow those of the zones
    * before it, and it leaves the order of the rest. */
  lemma ZoneStep(zones: map<string, ChassisPIDZone>, done: seq<string>, remaining: set<string>)
    requires remaining != {}
    ensures var z := FirstZone(remaining);
      ZonePairs(zones, done + [z]) == ZonePairs(zones, done) + PairsOf(z, if z in zones then zones[z].fanConnector else []) &&
      done + SortedZones(remaining) == (done + [z]) + SortedZones(remaining - {z})
  {
    var z := FirstZone(remaining);
    assert (done + [z])[..|done|] == done;
  }

  /** The zone loop of `publish`: the zones in the map's order, each with
    * its connectors. */
  method CreateChassisFans(config: HWManagerData, p: ProductDescription) returns (objs: seq<FanObject>)
    ensures objs == ChassisFanObjects(config, p, ZonePairs(config.chassisFans, SortedZones(config.chassisFans.Keys))).0
  {
    var zones := config.chassisFans;
    var remaining := zones.Keys;
    ghost var doneZones: seq<string> := [];
    objs := [];
    var chassisFanIndex: nat := 1;
    while remaining != {}
      invariant remaining <= zones.Keys
      invariant doneZones + SortedZones(remaining) == SortedZones(zones.Keys)
      invariant (objs, chassisFanIndex) == ChassisFanObjects(config, p, ZonePairs(zones, doneZones))
      decreases |remaining|
    {
      ghost var first := FirstZone(remaining);
      var zoneName :| zoneName in remaining && forall j :: j in remaining ==> StrLe(zoneName, j);
      StrLeAntisymmetric(zoneName, first);
      objs, chassisFanIndex := CreateZoneFans(config, p, zoneName, zones[zoneName].fanConnector,
                                              ZonePairs(zones, doneZones), objs, chassisFanIndex);
      ZoneStep(zones, doneZones, remaining);
      doneZones := doneZones + [zoneName];
      remaining := remaining - {zoneName};
    }
    assert doneZones == SortedZones(zones.Keys);
  }

  // ---------------------------------------------------------------------
  // The manager
  // ---------------------------------------------------------------------

  /** The product a model name selects: the first registry entry whose
    * name pattern matches it (the match is given with each entry). */
  function FirstMatching(registry: seq<(ProductDescription, bool)>): (r: Option<ProductDescription>)
    ensures r.None? <==> forall i :: 0 <= i < |registry| ==> !registry[i].1
    ensures r.Some? ==>
      exists i :: 0 <= i < |registry| && registry[i].1 && r.value == registry[i].0 &&
        forall j :: 0 <= j < i ==> !registry[j].1
  {
    if registry == [] then None
    else if registry[0].1 then Some(registry[0].0)
    else
      var r := FirstMatching(registry[1..]);
      assert forall i :: 1 <= i < |registry| ==> registry[i] == registry[1..][i - 1];
      r
  }

  class HWManager {
    /** The configuration the options build, and the one last published. */
    var config: HWManagerData
    var configActive: HWManagerData
    var chassis: seq<ChassisObject>
    var fans: seq<FanObject>
    var fanFeatures: map<nat, FanFeature>
    var detectFansState: FanState
    var numErrorAttempts: nat
    /** The delay of the armed detection timer; None when none is pending. */
    var detectTimer: Option<nat>
    /** The values written to the hwmon `pwmN` files, as (N, value). */
    var pwmWrites: seq<(nat, nat)>
    /** The number of D-Bus signal subscriptions held. */
    var matches: nat
    /** Whether the delayed fan-speed update is armed. */
    var fanSpeedTimerArmed: bool

    /** The fan-detection part of the state. */
    function Detection(): FanDetection
      reads this
    {
      FanDetection(detectFansState, numErrorAttempts, detectTimer, fanFeatures, fans, pwmWrites)
    }

    /** The constructor with the features loaded from the saved file
      * (`savedFeatures`); the detection starts uninitialised. */
    constructor (savedFeatures: map<nat, FanFeature>)
      ensures config == DefaultData(None) && configActive == DefaultData(None)
      ensures chassis == [] && fans == [] && matches == 0 && !fanSpeedTimerArmed
      ensures Detection() == FanDetection(Uninit, 0, None, savedFeatures, [], [])
    {
      config := DefaultData(None);
      configActive := DefaultData(None);
      chassis := [];
      fans := [];
      fanFeatures := savedFeatures;
      detectFansState := Uninit;
      numErrorAttempts := 0;
      detectTimer := None;
      pwmWrites := [];
      matches := 0;
      fanSpeedTimerArmed := false;
    }

    /** `setProduct`: the model name is stored and the product is the first
      * registry entry that matches it, or none. */
    method SetProduct(pname: string, registry: seq<(ProductDescription, bool)>)
      modifies this`config
      ensures config == old(config).(chassisModel := pname, desc := FirstMatching(registry))
    {
      config := config.(chassisModel := pname, desc := None);
      var i := 0;
      while i < |registry|
        invariant 0 <= i <= |registry|
        invariant config == old(config).(chassisModel := pname, desc := None)
        invariant FirstMatching(registry) == FirstMatching(registry[i..])
      {
        assert registry[i..][1..] == registry[i + 1..];
        if registry[i].1 {
          config := config.(desc := Some(registry[i].0));
          return;
        }
        i := i + 1;
      }
    }

    /** `setOption`. */
    method SetOption(optType: OptionType, instance: int, value: string) returns (ok: bool)
      modifies this`config
      ensures (ok, config) == SetOptionResult(old(config), optType, instance, value)
    {
      match optType {
        case CpuCooling =>
          if value == "00" {
            config := config.(haveCPUFans := false);
          } else if value == "01" {
            config := config.(haveCPUFans := true);
          }
          return true;
        case ChassisFans =>
          ok := SetChassisFans(instance, value);
        case PidZoneMinSpeed =>
          var zoneName := GetZoneName(instance);
          if |value| != 2 {
            return false;
          }
          var speed := 0;
          var res := FromCharsHex(value);
          if res.ok {
            speed := res.value;
          }
          if 5 <= speed <= 100 {
            config := config.(chassisFans := config.chassisFans[zoneName := config.Zone(zoneName).(fanMinSpeed := speed)]);
          }
          return true;
        case _ =>
          return false;
      }
    }

    /** The chassisFans option: the header, then the connectors one window
      * after the other. */
    method SetChassisFans(instance: int, value: string) returns (ok: bool)
      modifies this`config
      ensures (ok, config) == SetOptionResult(old(config), ChassisFans, instance, value)
    {
      var zoneName := GetZoneName(instance);
      if |value| < 2 {
        return false;
      }
      var res := FromCharsHex(value[0..2]);
      var cnt := res.value;
      if !res.ok || |value| < SizeT((cnt + 1) * 2) {
        return false;
      }
      var count: nat := if cnt < 0 then 0 else cnt;
      var done, list := ReadConnectors(value, res.next, count);
      config := config.(chassisFans := config.chassisFans[zoneName := config.Zone(zoneName).(fanConnector := list)]);
      return done;
    }

    /** `detectFansDelayed`. */
    method DetectFansDelayed(delaySecs: nat)
      modifies this`numErrorAttempts, this`detectFansState, this`detectTimer
      ensures Detection() == Delayed(old(Detection()), delaySecs)
    {
      numErrorAttempts := numErrorAttempts + 1;
      if numErrorAttempts > MaxErrorAttempts {
        detectFansState := Normal;
        return;
      }
      detectTimer := Some(delaySecs);
    }

    /** `onHostPowerChanged`: turning the host on gives the detection its
      * attempts back. */
    method OnHostPowerChanged(powered: bool)
      modifies this`numErrorAttempts
      ensures numErrorAttempts == if powered then 0 else old(numErrorAttempts)
    {
      if powered {
        numErrorAttempts := 0;
      }
    }

    /** `runDetectFans`: only an uninitialised detection starts, in the
      * init state when the host is powered. */
    method RunDetectFans(power: Common.PowerState, hw: Hwmon)
      modifies this`detectFansState, this`numErrorAttempts, this`detectTimer, this`fanFeatures, this`fans, this`pwmWrites
      ensures old(detectFansState) != Uninit ==> Detection() == old(Detection())
      ensures old(detectFansState) == Uninit ==>
        Detection() == DetectStep(old(Detection()).(state := if power.IsPowerOn() then Init else Uninit), config.desc, hw)
    {
      if detectFansState == Uninit {
        if power.IsPowerOn() {
          detectFansState := Init;
        }
        ProcessDetectState(hw);
      }
    }

    /** The detection timer expiring: its handler runs the next step. */
    method DetectTimerFired(hw: Hwmon)
      modifies this`detectFansState, this`numErrorAttempts, this`detectTimer, this`fanFeatures, this`fans, this`pwmWrites
      ensures old(detectTimer).None? ==> Detection() == old(Detection())
      ensures old(detectTimer).Some? ==> Detection() == DetectStep(old(Detection()).(timer := None), config.desc, hw)
    {
      if detectTimer.Some? {
        detectTimer := None;
        ProcessDetectState(hw);
      }
    }

    /** `processDetectState`. */
    method ProcessDetectState(hw: Hwmon)
      modifies this`detectFansState, this`numErrorAttempts, this`detectTimer, this`fanFeatures, this`fans, this`pwmWrites
      ensures Detection() == DetectStep(old(Detection()), config.desc, hw)
    {
      if detectFansState == Normal {
        return;
      }
      if config.desc.None? {
        DetectFansDelayed(5);
        return;
      }
      if detectFansState != Uninit {
        var ok := ProcessSystemFans(hw);
        if !ok {
          detectFansState := Normal;
        }
      }
      match detectFansState {
        case Uninit =>
          if |fanFeatures| > 0 {
            detectFansState := Normal;
          }
        case Init =>
          detectFansState := Detect;
          DetectFansDelayed(5);
        case Detect =>
          UpdateSystemFanFeatures();
          detectFansState := Normal;
        case Normal =>
      }
      if detectFansState == Normal {
        PublishSystemFans();
      }
    }

    /** `processSystemFans`. */
    method ProcessSystemFans(hw: Hwmon) returns (ok: bool)
      requires config.desc.Some?
      modifies this`fanFeatures, this`pwmWrites
      ensures (ok, Detection()) == SystemFans(old(Detection()), config.desc.value, hw)
    {
      var desc := config.desc.value;
      if desc.detectionFanTable == [] || !hw.found {
        return false;
      }
      var features, writes := ProbeConnectors(Detection(), desc.fans, hw);
      fanFeatures, pwmWrites := features, writes;
      return true;
    }

    /** `updateSystemFanFeatures`. */
    method UpdateSystemFanFeatures()
      requires config.desc.Some?
      modifies this`fanFeatures
      ensures fanFeatures == UpdateAll(old(fanFeatures), config.desc.value.fans, config.desc.value)
    {
      var desc := config.desc.value;
      var conns := desc.fans;
      var features := fanFeatures;
      ghost var start := fanFeatures;
      var i := 0;
      while i < |conns|
        invariant 0 <= i <= |conns|
        invariant features == UpdateAll(start, conns[..i], desc)
      {
        assert conns[..i + 1][..i] == conns[..i];
        var (conIndex, c) := conns[i];
        if c.kind == SystemConnector {
          var fan := FeatureOf(features, conIndex);
          var fanInfo := GetFanInfoByRPM(desc.detectionFanTable, fan.maxInletRpm, fan.maxOutletRpm);
          if fanInfo.fanType != Unknown && fanInfo.partNumber != "" && fanInfo.prettyName != "" {
            fan := fan.(partNumber := fanInfo.partNumber, prettyName := fanInfo.prettyName, fanType := fanInfo.fanType);
          } else {
            fan := fan.(partNumber := desc.sysFanPN, prettyName := "System Fan " + NatToString(c.fanIndex));
          }
          features := features[conIndex := fan];
        }
        i := i + 1;
      }
      assert conns[..i] == conns;
      fanFeatures := features;
    }

    /** The erase loop of `clear` (`system` true) and of
      * `publishSystemFans` (`system` false): it drops every fan whose being
      * a system fan differs from `system`. */
    method EraseFans(system: bool)
      modifies this`fans
      ensures fans == Keep(old(fans), system)
    {
      var fs := fans;
      ghost var kept := Keep(fans, system);
      var i := 0;
      while i < |fs|
        invariant 0 <= i <= |fs|
        invariant fs[..i] + Keep(fs[i..], system) == kept
        decreases |fs| - i
      {
        EraseStep(fs, i, system);
        if IsSystemFan(fs[i]) != system {
          fs := fs[..i] + fs[i + 1..];
        } else {
          i := i + 1;
        }
      }
      assert fs[..i] == fs;
      fans := fs;
    }

    /** `publishSystemFans`. */
    method PublishSystemFans()
      modifies this`fans, this`fanFeatures
      ensures Detection() == PublishSystem(old(Detection()), config.desc)
    {
      if config.desc.None? {
        return;
      }
      var desc := config.desc.value;
      EraseFans(false);
      var conns := desc.fans;
      var features, objs := fanFeatures, [];
      var i := 0;
      while i < |conns|
        invariant 0 <= i <= |conns|
        invariant (features, objs) == PublishAll(fanFeatures, conns[..i], desc)
      {
        assert conns[..i + 1][..i] == conns[..i];
        var (conIndex, c) := conns[i];
        if c.kind == SystemConnector {
          var fan := FeatureOf(features, conIndex);
          features := features[conIndex := fan];
          var fanIndexStr := NatToString(c.fanIndex);
          var prettyName := "System Fan " + fanIndexStr;
          var partNumber := desc.sysFanPN;
          if fan.prettyName != "" {
            prettyName := fan.prettyName;
          }
          if fan.partNumber != "" {
            partNumber := fan.partNumber;
          }
          objs := objs + [FanObject(SysFanPrefixName + fanIndexStr, prettyName, desc.productName + " System Fan",
                                    partNumber, c.zone, c.connector)];
        }
        i := i + 1;
      }
      assert conns[..i] == conns;
      fanFeatures, fans := features, fans + objs;
    }

    /** `publish`: unless there is no product or the configuration is
      * the published one, the previous objects are cleared, the chassis,
      * CPU fans and chassis fans of the configuration are created, the
      * configuration becomes the published one, one subscription is held
      * and the fan-speed update is armed. */
    method Publish()
      modifies this`matches, this`chassis, this`fans, this`configActive, this`fanSpeedTimerArmed
      ensures old(config.desc).None? || old(configActive) == old(config) ==>
        matches == old(matches) && chassis == old(chassis) && fans == old(fans) &&
        configActive == old(configActive) && fanSpeedTimerArmed == old(fanSpeedTimerArmed)
      ensures old(config.desc).Some? && old(configActive) != old(config) ==>
        var p := config.desc.value;
        chassis == [ChassisObject(p.productName, config.chassisModel, config.chassisPartNumber, config.chassisSerial)] &&
        fans == Keep(old(fans), true) + PublishedFans(config, p) &&
        configActive == config && matches == 1 && fanSpeedTimerArmed
    {
      if config.desc.None? || configActive == config {
        return;
      }
      Clear();
      var p := config.desc.value;
      chassis := [ChassisObject(p.productName, config.chassisModel, config.chassisPartNumber, config.chassisSerial)];

      var cpuObjs := CreateCpuFans(config, p);
      var chaObjs := CreateChassisFans(config, p);
      fans := fans + (cpuObjs + chaObjs);
      configActive := config;
      matches := matches + 1;
      fanSpeedTimerArmed := true;
    }

    /** `clear`: the subscriptions and the chassis are dropped, and of the
      * fans only the system fans stay. */
    method Clear()
      modifies this`matches, this`chassis, this`fans
      ensures matches == 0 && chassis == [] && fans == Keep(old(fans), true)
    {
      matches := 0;
      chassis := [];
      EraseFans(true);
    }
  }
}
