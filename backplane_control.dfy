// The backplane controller of the storage manager
// (storage/backplane_control.cpp): one per backplane MCU, it opens the MCU
// for every operation, keeps the drives table and the MCU's firmware
// version, and serves the drive location LEDs and the host power state.
module BackplaneControl {
  import opened Wrappers
  import opened McuApi
  import McuDriver

  /** The error every failed operation reports. */
  const InternalFailure: string := "xyz.openbmc_project.Common.Error.InternalFailure"

  /** The controller's configuration: the MCU channels, as its index to
    * drive slot name map in ascending index order, whether drive I2C buses
    * are looked up, and whether the host power state is passed on. */
  datatype Config = Config(channels: seq<(int, string)>, haveDriveI2C: bool, softwarePowerGood: bool)

  /** The drive interface published on the bus. */
  datatype DriveInterface = Unknown | NoDisk | SataSas | NVMe

  /** One row of the drives table: slot name, serial number, interface and
    * failure flag. */
  datatype Drive = Drive(name: string, sn: string, iface: DriveInterface, failure: bool)

  /** The interface of a drive from its reported type, reconciled with the
    * presence bit: a present drive reported as missing is of unknown kind;
    * a SATA/SAS or NVMe type is taken as reported even without presence. */
  function Interface(kind: McuDriver.DriveType, present: bool): (r: DriveInterface)
  {
    match kind
    case SataSas => SataSas
    case NVMe => NVMe
    case NoDisk => if present then Unknown else NoDisk
    case Unknown => Unknown
  }

  /** readDriveSN as seen from a map: a slot without a known serial reads
    * as "". */
  function SerialOf(serials: map<string, string>, name: string): string
  {
    if name in serials then serials[name] else ""
  }

  /** The reconciliation, case by case. */
  lemma InterfaceReconciles(kind: McuDriver.DriveType, present: bool)
    ensures Interface(kind, present) == SataSas <==> kind == McuDriver.SataSas
    ensures Interface(kind, present) == NVMe <==> kind == McuDriver.NVMe
    ensures Interface(kind, present) == NoDisk <==> kind == McuDriver.NoDisk && !present
    ensures Interface(kind, present) == Unknown <==> kind == McuDriver.Unknown || (kind == McuDriver.NoDisk && present)
  {
  }

  /** Reading one channel: presence, failure and type, and, for an NVMe
    * drive on a backplane with drive I2C, its serial number through
    * `serial` (readDriveSN: the drive's VPD, which is not on the MCU's
    * device). None when the index is out of range or a call fails. */
  function ChannelStep(ans: seq<Answer>, k: nat, idx: int, name: string, haveDriveI2C: bool,
                       serial: map<string, string>): (seq<Call>, Option<Drive>)
  {
    if idx < 0 || idx >= McuDriver.MaxChannels then ([], None)
    else if At(ans, k).fails then ([DrivePresent(idx)], None)
    else if At(ans, k + 1).fails then ([DrivePresent(idx), DriveFailured(idx)], None)
    else if At(ans, k + 2).fails then ([DrivePresent(idx), DriveFailured(idx), GetDriveType(idx)], None)
    else
      var iface := Interface(At(ans, k + 2).kind, At(ans, k).flag);
      var sn := if haveDriveI2C && iface == NVMe then SerialOf(serial, name) else "";
      ([DrivePresent(idx), DriveFailured(idx), GetDriveType(idx)], Some(Drive(name, sn, iface, At(ans, k + 1).flag)))
  }

  /** Reading the first `n` channels in order, the first call getting
    * answer `k`: the calls made and the new drives table, or None once a
    * channel fails. */
  function ChannelsRun(ans: seq<Answer>, k: nat, channels: seq<(int, string)>, n: nat, haveDriveI2C: bool,
                       serial: map<string, string>): (seq<Call>, Option<seq<Drive>>)
    requires n <= |channels|
  {
    if n == 0 then ([], Some([]))
    else
      var r := ChannelsRun(ans, k, channels, n - 1, haveDriveI2C, serial);
      if r.1.None? then r
      else
        var s := ChannelStep(ans, k + |r.0|, channels[n - 1].0, channels[n - 1].1, haveDriveI2C, serial);
        (r.0 + s.0, if s.1.None? then None else Some(r.1.value + [s.1.value]))
  }

  /** Once a channel fails, the channels after it are not read. */
  lemma {:induction false} ChannelsRunStopped(ans: seq<Answer>, k: nat, channels: seq<(int, string)>, i: nat, n: nat,
                                              haveDriveI2C: bool, serial: map<string, string>)
    requires i <= n <= |channels|
    requires ChannelsRun(ans, k, channels, i, haveDriveI2C, serial).1.None?
    ensures ChannelsRun(ans, k, channels, n, haveDriveI2C, serial) == ChannelsRun(ans, k, channels, i, haveDriveI2C, serial)
    decreases n - i
  {
    if i < n {
      ChannelsRunStopped(ans, k, channels, i, n - 1, haveDriveI2C, serial);
    }
  }

  /** What the controller keeps between refreshes. */
  datatype Snapshot = Snapshot(cache: bv32, version: string, drives: seq<Drive>)

  /** doRefresh once the MCU opened, the first call getting answer `k`:
    * the firmware version is read while none is known, then the state
    * fingerprint is compared, which overwrites the cache. The calls, the
    * new view, and the comparison's answer. */
  function Prelude(ans: seq<Answer>, k: nat, v: Snapshot): (seq<Call>, Snapshot, Answer)
  {
    var askVersion := v.version == "";
    var vc: seq<Call> := if askVersion then [GetFwVersion] else [];
    var v1 := if askVersion && At(ans, k).text != "" then v.(version := At(ans, k).text) else v;
    var a := At(ans, k + |vc|);
    (vc + [IsStateChanged(v.cache)], v1.(cache := a.cache), a)
  }

  /** doRefresh once the MCU opened, the first call getting answer `k`:
    * the calls made, the new view and the result. The channels are read
    * only when the state changed or the table is empty; any failure makes
    * the refresh fail, keeping the table. */
  function SyncRun(ans: seq<Answer>, k: nat, cfg: Config, v: Snapshot, serial: map<string, string>): (seq<Call>, Snapshot, bool)
  {
    var p := Prelude(ans, k, v);
    if p.2.fails then (p.0, p.1, false)
    else if !p.2.flag && v.drives != [] then (p.0, p.1, true)
    else
      var c := ChannelsRun(ans, k + |p.0|, cfg.channels, |cfg.channels|, cfg.haveDriveI2C, serial);
      (p.0 + c.0, if c.1.Some? then p.1.(drives := c.1.value) else p.1, c.1.Some?)
  }

  /** doRefresh, the first call getting answer `k`: a device that does not
    * open fails the refresh at once. */
  function RefreshRun(ans: seq<Answer>, k: nat, cfg: Config, v: Snapshot, serial: map<string, string>): (seq<Call>, Snapshot, bool)
  {
    if At(ans, k).fails then ([Open], v, false)
    else
      var s := SyncRun(ans, k + 1, cfg, v, serial);
      ([Open] + s.0, s.1, s.2)
  }

  /** The first channel carrying the slot name, in index order. */
  function FindChannel(channels: seq<(int, string)>, name: string): (r: Option<nat>)
    ensures r.Some? ==>
      r.value < |channels| && channels[r.value].1 == name && forall j :: 0 <= j < r.value ==> channels[j].1 != name
    ensures r.None? ==> forall j :: 0 <= j < |channels| ==> channels[j].1 != name
  {
    if channels == [] then None
    else if channels[0].1 == name then Some(0)
    else
      var r := FindChannel(channels[1..], name);
      if r.None? then None else Some(r.value + 1)
  }

  /** The first drive in the table carrying the serial number. */
  function FindDrive(drives: seq<Drive>, sn: string): (r: Option<nat>)
    ensures r.Some? ==>
      r.value < |drives| && drives[r.value].sn == sn && forall j :: 0 <= j < r.value ==> drives[j].sn != sn
    ensures r.None? ==> forall j :: 0 <= j < |drives| ==> drives[j].sn != sn
  {
    if drives == [] then None
    else if drives[0].sn == sn then Some(0)
    else
      var r := FindDrive(drives[1..], sn);
      if r.None? then None else Some(r.value + 1)
  }

  /** What findChannelByDriveSN answers from the refreshed table: the slot
    * of the first drive with the serial number if reading its serial again
    * through `current` still gives it; otherwise "", and whether the table
    * is stale (the drive there now has another serial). */
  function Lookup(drives: seq<Drive>, sn: string, current: map<string, string>): (r: (string, bool))
    ensures r.1 ==> r.0 == ""
    ensures r.0 != "" ==> exists i :: 0 <= i < |drives| && drives[i].sn == sn && drives[i].name == r.0 && SerialOf(current, r.0) == sn
    ensures (forall i :: 0 <= i < |drives| ==> drives[i].sn != sn) ==> r == ("", false)
  {
    match FindDrive(drives, sn)
    case None => ("", false)
    case Some(i) => if SerialOf(current, drives[i].name) == sn then (drives[i].name, false) else ("", true)
  }

  class BackplaneController {
    /** The MCU every operation opens anew. */
    const mcu: Mcu
    var cfg: Config
    /** The channels' state fingerprint seen last. */
    var cachedState: bv32
    var firmwareVersion: string
    var drives: seq<Drive>
    /** The operational status published on the bus. */
    var functional: bool

    function Current(): Snapshot
      reads this
    {
      Snapshot(cachedState, firmwareVersion, drives)
    }

    /** The construction: an empty view, then a refresh. */
    constructor (mcu: Mcu, config: Config, serial: map<string, string>)
      modifies mcu
      ensures this.mcu == mcu && cfg == config
      ensures var r := RefreshRun(mcu.answers, |old(mcu.trace)|, config, Snapshot(0, "", []), serial);
        mcu.trace == old(mcu.trace) + r.0 && Current() == r.1 && functional == r.2
    {
      this.mcu := mcu;
      cfg := config;
      cachedState := 0;
      firmwareVersion := "";
      drives := [];
      new;
      var ok := Refresh(serial);
    }

    /** Reading every configured channel. */
    method ReadChannels(channels: seq<(int, string)>, haveDriveI2C: bool, serial: map<string, string>)
      returns (states: Option<seq<Drive>>)
      modifies mcu
      ensures var c := ChannelsRun(mcu.answers, |old(mcu.trace)|, channels, |channels|, haveDriveI2C, serial);
        mcu.trace == old(mcu.trace) + c.0 && states == c.1
    {
      ghost var t0 := mcu.trace;
      ghost var done: seq<Call> := [];
      var acc: seq<Drive> := [];
      var i := 0;
      var failed := false;
      while i < |channels| && !failed
        invariant i <= |channels| && mcu.trace == t0 + done
        invariant ChannelsRun(mcu.answers, |t0|, channels, i, haveDriveI2C, serial) == (done, if failed then None else Some(acc))
      {
        var d;
        d, done := ReadNext(channels, i, haveDriveI2C, serial, t0, done, acc);
        if d.None? {
          failed := true;
        } else {
          acc := acc + [d.value];
        }
        i := i + 1;
      }
      if failed {
        ChannelsRunStopped(mcu.answers, |t0|, channels, i, |channels|, haveDriveI2C, serial);
        return None;
      }
      states := Some(acc);
    }

    /** The loop body of ReadChannels: one more channel read. */
    method ReadNext(channels: seq<(int, string)>, i: nat, haveDriveI2C: bool, serial: map<string, string>,
                    ghost t0: seq<Call>, ghost done: seq<Call>, ghost acc: seq<Drive>)
      returns (d: Option<Drive>, ghost done': seq<Call>)
      requires i < |channels| && mcu.trace == t0 + done
      requires ChannelsRun(mcu.answers, |t0|, channels, i, haveDriveI2C, serial) == (done, Some(acc))
      modifies mcu
      ensures mcu.trace == t0 + done'
      ensures ChannelsRun(mcu.answers, |t0|, channels, i + 1, haveDriveI2C, serial) == (done', if d.None? then None else Some(acc + [d.value]))
    {
      ghost var step := ChannelStep(mcu.answers, |mcu.trace|, channels[i].0, channels[i].1, haveDriveI2C, serial);
      d := ReadChannel(channels[i].0, channels[i].1, haveDriveI2C, serial);
      done' := done + step.0;
    }

    /** One channel: presence, failure and type, then the serial number. */
    method ReadChannel(idx: int, name: string, haveDriveI2C: bool, serial: map<string, string>)
      returns (d: Option<Drive>)
      modifies mcu
      ensures var s := ChannelStep(mcu.answers, |old(mcu.trace)|, idx, name, haveDriveI2C, serial);
        mcu.trace == old(mcu.trace) + s.0 && d == s.1 && (d.Some? ==> |s.0| == 3)
    {
      if idx < 0 || idx >= McuDriver.MaxChannels {
        return None;
      }
      var present := mcu.DrivePresent(idx);
      if present.Err? {
        return None;
      }
      var failure := mcu.DriveFailured(idx);
      if failure.Err? {
        return None;
      }
      var kind := mcu.DriveType(idx);
      if kind.Err? {
        return None;
      }
      var iface := Interface(kind.value, present.value);
      var sn := "";
      if haveDriveI2C && iface == NVMe {
        sn := SerialOf(serial, name);
      }
      d := Some(Drive(name, sn, iface, failure.value));
    }

    /** The version query and the state comparison of doRefresh. */
    method Prepare() returns (changed: Result<bool>)
      modifies this`cachedState, this`firmwareVersion, mcu
      ensures var p := Prelude(mcu.answers, |old(mcu.trace)|, old(Current()));
        mcu.trace == old(mcu.trace) + p.0 && Current() == p.1 && changed == Test(p.2)
    {
      if firmwareVersion == "" {
        var version := mcu.GetFwVersion();
        if version != "" {
          firmwareVersion := version;
        }
      }
      var newCache;
      changed, newCache := mcu.IsStateChanged(cachedState);
      cachedState := newCache;
    }

    /** doRefresh after the MCU opened. */
    method Sync(serial: map<string, string>) returns (ok: bool)
      modifies this`cachedState, this`firmwareVersion, this`drives, mcu
      ensures var r := SyncRun(mcu.answers, |old(mcu.trace)|, cfg, old(Current()), serial);
        mcu.trace == old(mcu.trace) + r.0 && Current() == r.1 && ok == r.2
    {
      ghost var t0 := mcu.trace;
      ghost var v0 := Current();
      ghost var p := Prelude(mcu.answers, |t0|, v0);
      var changed := Prepare();
      if changed.Err? {
        return false;
      }
      if !(changed.value || drives == []) {
        return true;
      }
      ghost var t1 := mcu.trace;
      ghost var v1 := Current();
      var states := ReadChannels(cfg.channels, cfg.haveDriveI2C, serial);
      ghost var c := ChannelsRun(mcu.answers, |t1|, cfg.channels, |cfg.channels|, cfg.haveDriveI2C, serial);
      assert mcu.trace == t0 + (p.0 + c.0);
      if states.None? {
        return false;
      }
      drives := states.value;
      ok := true;
    }

    /** doRefresh. */
    method DoRefresh(serial: map<string, string>) returns (ok: bool)
      modifies this`cachedState, this`firmwareVersion, this`drives, mcu
      ensures var r := RefreshRun(mcu.answers, |old(mcu.trace)|, cfg, old(Current()), serial);
        mcu.trace == old(mcu.trace) + r.0 && Current() == r.1 && ok == r.2
    {
      ghost var t0 := mcu.trace;
      var open := mcu.Open();
      if open.Err? {
        return false;
      }
      ok := Sync(serial);
      assert mcu.trace == t0 + ([Open] + SyncRun(mcu.answers, |t0| + 1, cfg, old(Current()), serial).0);
    }

    /** refresh: the refresh, whose result becomes the operational status. */
    method Refresh(serial: map<string, string>) returns (ok: bool)
      modifies this`cachedState, this`firmwareVersion, this`drives, this`functional, mcu
      ensures var r := RefreshRun(mcu.answers, |old(mcu.trace)|, cfg, old(Current()), serial);
        mcu.trace == old(mcu.trace) + r.0 && Current() == r.1 && ok == r.2 && functional == ok
    {
      ok := DoRefresh(serial);
      functional := ok;
    }

    /** updateConfig: a new configuration replaces the old one and is
      * refreshed at once; the same one changes nothing. */
    method UpdateConfig(config: Config, serial: map<string, string>)
      modifies this, mcu
      ensures cfg == config
      ensures old(cfg) == config ==> mcu.trace == old(mcu.trace) && Current() == old(Current()) && functional == old(functional)
      ensures old(cfg) != config ==>
        var r := RefreshRun(mcu.answers, |old(mcu.trace)|, config, old(Current()), serial);
        mcu.trace == old(mcu.trace) + r.0 && Current() == r.1 && functional == r.2
    {
      if cfg == config {
        return;
      }
      cfg := config;
      var ok := Refresh(serial);
    }

    /** channelIndexByName: -1 for the empty name, the index of the first
      * channel carrying the name, and a failure for an unknown name. */
    function ChannelIndexByName(name: string): (r: Result<int>)
      reads this
      ensures name == "" ==> r == Ok(-1)
      ensures name != "" && r.Ok? ==>
        exists i :: 0 <= i < |cfg.channels| && cfg.channels[i] == (r.value, name) &&
          forall j :: 0 <= j < i ==> cfg.channels[j].1 != name
      ensures name != "" ==> (r.Err? <==> forall i :: 0 <= i < |cfg.channels| ==> cfg.channels[i].1 != name)
    {
      if name == "" then Ok(-1)
      else
        var f := FindChannel(cfg.channels, name);
        if f.None? then Err(InternalFailure) else Ok(cfg.channels[f.value].0)
    }

    /** setDriveLocationLED: the slot must name a channel whose index is in
      * range; a failure to reach the MCU makes the controller
      * non-functional. */
    method SetDriveLocationLED(name: string, on: bool) returns (r: Result<()>)
      modifies this`functional, mcu
      ensures var idx := ChannelIndexByName(name);
        if idx.Err? || idx.value < 0 || idx.value >= McuDriver.MaxChannels then
          r.Err? && mcu.trace == old(mcu.trace) && functional == old(functional)
        else if At(mcu.answers, |old(mcu.trace)|).fails then
          r.Err? && mcu.trace == old(mcu.trace) + [Open] && !functional
        else
          mcu.trace == old(mcu.trace) + [Open, Call.SetDriveLocationLED(idx.value, on)] &&
          (r.Ok? <==> !At(mcu.answers, |old(mcu.trace)| + 1).fails) &&
          functional == (old(functional) && r.Ok?)
    {
      var idx := ChannelIndexByName(name);
      if idx.Err? || idx.value < 0 || idx.value >= McuDriver.MaxChannels {
        return Err(InternalFailure);
      }
      var open := mcu.Open();
      if open.Err? {
        functional := false;
        return Err(InternalFailure);
      }
      r := mcu.SetDriveLocationLED(idx.value, on);
      if r.Err? {
        functional := false;
        r := Err(InternalFailure);
      }
    }

    /** getDriveLocationLED: as setDriveLocationLED, with the LED's state as
      * the answer. */
    method GetDriveLocationLED(name: string) returns (r: Result<bool>)
      modifies this`functional, mcu
      ensures var idx := ChannelIndexByName(name);
        if idx.Err? || idx.value < 0 || idx.value >= McuDriver.MaxChannels then
          r.Err? && mcu.trace == old(mcu.trace) && functional == old(functional)
        else if At(mcu.answers, |old(mcu.trace)|).fails then
          r.Err? && mcu.trace == old(mcu.trace) + [Open] && !functional
        else
          var a := At(mcu.answers, |old(mcu.trace)| + 1);
          mcu.trace == old(mcu.trace) + [Open, Call.GetDriveLocationLED(idx.value)] &&
          (r.Ok? <==> !a.fails) && (r.Ok? ==> r.value == a.flag) &&
          functional == (old(functional) && r.Ok?)
    {
      var idx := ChannelIndexByName(name);
      if idx.Err? || idx.value < 0 || idx.value >= McuDriver.MaxChannels {
        return Err(InternalFailure);
      }
      var open := mcu.Open();
      if open.Err? {
        functional := false;
        return Err(InternalFailure);
      }
      r := mcu.GetDriveLocationLED(idx.value);
      if r.Err? {
        functional := false;
        r := Err(InternalFailure);
      }
    }

    /** resetDriveLocationLEDs: every LED off; a failure to reach the MCU
      * makes the controller non-functional. */
    method ResetDriveLocationLEDs() returns (r: Result<()>)
      modifies this`functional, mcu
      ensures if At(mcu.answers, |old(mcu.trace)|).fails then
          r.Err? && mcu.trace == old(mcu.trace) + [Open] && !functional
        else
          mcu.trace == old(mcu.trace) + [Open, Call.ResetDriveLocationLEDs] &&
          (r.Ok? <==> !At(mcu.answers, |old(mcu.trace)| + 1).fails) &&
          functional == (old(functional) && r.Ok?)
    {
      var open := mcu.Open();
      if open.Err? {
        functional := false;
        return Err(InternalFailure);
      }
      r := mcu.ResetDriveLocationLEDs();
      if r.Err? {
        functional := false;
        r := Err(InternalFailure);
      }
    }

    /** hostPowerChanged: passed on only where the configuration asks for
      * it; a failure makes the controller non-functional but is not
      * reported. */
    method HostPowerChanged(powered: bool)
      modifies this`functional, mcu
      ensures !cfg.softwarePowerGood ==> mcu.trace == old(mcu.trace) && functional == old(functional)
      ensures cfg.softwarePowerGood ==>
        if At(mcu.answers, |old(mcu.trace)|).fails then
          mcu.trace == old(mcu.trace) + [Open] && !functional
        else
          mcu.trace == old(mcu.trace) + [Open, SetHostPowerState(powered)] &&
          functional == (old(functional) && !At(mcu.answers, |old(mcu.trace)| + 1).fails)
    {
      if !cfg.softwarePowerGood {
        return;
      }
      var open := mcu.Open();
      if open.Err? {
        functional := false;
        return;
      }
      var r := mcu.SetHostPowerState(powered);
      if r.Err? {
        functional := false;
      }
    }

    /** findChannelByDriveSN: after a refresh (whose failure is an error),
      * the lookup in the refreshed table; a stale entry inverts the cached
      * fingerprint so that the next refresh rereads the channels. */
    method FindChannelByDriveSN(driveSN: string, serial: map<string, string>, current: map<string, string>)
      returns (r: Result<string>)
      modifies this`cachedState, this`firmwareVersion, this`drives, this`functional, mcu
      ensures var run := RefreshRun(mcu.answers, |old(mcu.trace)|, cfg, old(Current()), serial);
        mcu.trace == old(mcu.trace) + run.0 && functional == run.2 &&
        if !run.2 then r.Err? && Current() == run.1
        else
          var l := Lookup(run.1.drives, driveSN, current);
          r == Ok(l.0) && Current() == if l.1 then run.1.(cache := !run.1.cache) else run.1
    {
      var ok := Refresh(serial);
      if !ok {
        return Err(InternalFailure);
      }
      var name := Answer(driveSN, current);
      r := Ok(name);
    }

    /** The lookup and, for a stale entry, the inverted fingerprint. */
    method Answer(driveSN: string, current: map<string, string>) returns (name: string)
      modifies this`cachedState
      ensures var l := Lookup(drives, driveSN, current);
        name == l.0 && Current() == if l.1 then old(Current()).(cache := !old(cachedState)) else old(Current())
    {
      var stale;
      name, stale := LookupDrive(driveSN, current);
      if stale {
        cachedState := !cachedState;
      }
    }

    /** The lookup loop of findChannelByDriveSN. */
    method LookupDrive(driveSN: string, current: map<string, string>) returns (name: string, stale: bool)
      ensures (name, stale) == Lookup(drives, driveSN, current)
    {
      var i := 0;
      while i < |drives|
        invariant i <= |drives|
        invariant forall j :: 0 <= j < i ==> drives[j].sn != driveSN
      {
        if drives[i].sn == driveSN {
          assert FindDrive(drives, driveSN) == Some(i);
          if drives[i].sn != SerialOf(current, drives[i].name) {
            return "", true;
          }
          return drives[i].name, false;
        }
        i := i + 1;
      }
      return "", false;
    }
  }
}

module BackplaneControlProps {
  import opened Wrappers
  import opened McuApi
  import McuDriver
  import opened BackplaneControl

  /** A table read in full has one row per channel, and each channel took
    * three calls. */
  lemma {:induction false} ChannelsRunLength(ans: seq<Answer>, k: nat, channels: seq<(int, string)>, n: nat,
                                             haveDriveI2C: bool, serial: map<string, string>)
    requires n <= |channels|
    requires ChannelsRun(ans, k, channels, n, haveDriveI2C, serial).1.Some?
    ensures var r := ChannelsRun(ans, k, channels, n, haveDriveI2C, serial);
      |r.1.value| == n && |r.0| == 3 * n
  {
    if n > 0 {
      ChannelsRunLength(ans, k, channels, n - 1, haveDriveI2C, serial);
    }
  }

  /** Row `i` of a table read in full is named after channel `i`, whose
    * index is in range; it has a serial number only for an NVMe drive on a
    * backplane with drive I2C; and channel `i` was read starting with call
    * `3 * i`. */
  lemma {:induction false} ChannelsRunTable(ans: seq<Answer>, k: nat, channels: seq<(int, string)>, n: nat,
                                            haveDriveI2C: bool, serial: map<string, string>, i: nat)
    requires i < n <= |channels|
    requires ChannelsRun(ans, k, channels, n, haveDriveI2C, serial).1.Some?
    ensures var r := ChannelsRun(ans, k, channels, n, haveDriveI2C, serial);
      |r.1.value| == n && |r.0| == 3 * n
    ensures var r := ChannelsRun(ans, k, channels, n, haveDriveI2C, serial);
      var d := r.1.value[i];
      && 0 <= channels[i].0 < McuDriver.MaxChannels && d.name == channels[i].1
      && (d.sn != "" ==> haveDriveI2C && d.iface == NVMe)
      && r.0[3 * i] == DrivePresent(channels[i].0)
    decreases n
  {
    ChannelsRunLength(ans, k, channels, n, haveDriveI2C, serial);
    var r := ChannelsRun(ans, k, channels, n - 1, haveDriveI2C, serial);
    ChannelsRunLength(ans, k, channels, n - 1, haveDriveI2C, serial);
    if i < n - 1 {
      ChannelsRunTable(ans, k, channels, n - 1, haveDriveI2C, serial, i);
    }
  }

  /** A channel index out of range fails the read, and no channel from it
    * on is read. */
  lemma {:induction false} ChannelsRunBadIndex(ans: seq<Answer>, k: nat, channels: seq<(int, string)>, n: nat,
                                               j: nat, haveDriveI2C: bool, serial: map<string, string>)
    requires j < n <= |channels|
    requires channels[j].0 < 0 || channels[j].0 >= McuDriver.MaxChannels
    ensures var r := ChannelsRun(ans, k, channels, n, haveDriveI2C, serial);
      r.1.None? && |r.0| <= 3 * j
  {
    ChannelsRunShort(ans, k, channels, j, haveDriveI2C, serial);
    var r := ChannelsRun(ans, k, channels, j, haveDriveI2C, serial);
    var r1 := ChannelsRun(ans, k, channels, j + 1, haveDriveI2C, serial);
    if r.1.Some? {
      assert r.0 + [] == r.0;
    }
    assert r1 == (r.0, None);
    ChannelsRunStopped(ans, k, channels, j + 1, n, haveDriveI2C, serial);
  }

  /** Reading `n` channels takes at most three calls each. */
  lemma {:induction false} ChannelsRunShort(ans: seq<Answer>, k: nat, channels: seq<(int, string)>, n: nat,
                                            haveDriveI2C: bool, serial: map<string, string>)
    requires n <= |channels|
    ensures |ChannelsRun(ans, k, channels, n, haveDriveI2C, serial).0| <= 3 * n
  {
    if n > 0 {
      ChannelsRunShort(ans, k, channels, n - 1, haveDriveI2C, serial);
    }
  }

  /** The skip rule: with a table already read and an unchanged state, a
    * refresh succeeds after opening, the version query and the state
    * comparison, keeping the table. */
  lemma RefreshSkipsUnchanged(ans: seq<Answer>, k: nat, cfg: Config, v: Snapshot, serial: map<string, string>)
    requires !At(ans, k).fails && v.drives != []
    requires var j := if v.version == "" then k + 2 else k + 1; !At(ans, j).fails && !At(ans, j).flag
    ensures var r := RefreshRun(ans, k, cfg, v, serial);
      && r.2 && r.1.drives == v.drives
      && r.0 == [Open] + (if v.version == "" then [GetFwVersion] else []) + [IsStateChanged(v.cache)]
  {
  }

  /** With a channel index out of range the table is never replaced: the
    * refresh either fails or keeps the table by the skip rule. */
  lemma RefreshBadChannel(ans: seq<Answer>, k: nat, cfg: Config, v: Snapshot, serial: map<string, string>, j: nat)
    requires j < |cfg.channels| && (cfg.channels[j].0 < 0 || cfg.channels[j].0 >= McuDriver.MaxChannels)
    ensures RefreshRun(ans, k, cfg, v, serial).1.drives == v.drives
  {
    if !At(ans, k).fails {
      var p := Prelude(ans, k + 1, v);
      ChannelsRunBadIndex(ans, k + 1 + |p.0|, cfg.channels, |cfg.channels|, j, cfg.haveDriveI2C, serial);
    }
  }

  /** What a successful refresh leaves: the old table (skip rule), or a
    * table read in full from the configured channels. The firmware version
    * once known is never replaced, and only a failing refresh or the skip
    * rule keeps the old table. */
  lemma RefreshResult(ans: seq<Answer>, k: nat, cfg: Config, v: Snapshot, serial: map<string, string>)
    ensures var r := RefreshRun(ans, k, cfg, v, serial);
      r.2 && r.1.drives != v.drives ==>
        |r.1.drives| == |cfg.channels| &&
        forall i :: 0 <= i < |cfg.channels| ==>
          r.1.drives[i].name == cfg.channels[i].1 && 0 <= cfg.channels[i].0 < McuDriver.MaxChannels
    ensures var r := RefreshRun(ans, k, cfg, v, serial);
      !r.2 ==> r.1.drives == v.drives
    ensures var r := RefreshRun(ans, k, cfg, v, serial);
      v.version != "" ==> r.1.version == v.version
  {
    RefreshKeeps(ans, k, cfg, v, serial);
    var r := RefreshRun(ans, k, cfg, v, serial);
    if r.2 && r.1.drives != v.drives {
      var m := k + 1 + |Prelude(ans, k + 1, v).0|;
      RefreshedTable(ans, k, cfg, v, serial);
      ChannelsRunLength(ans, m, cfg.channels, |cfg.channels|, cfg.haveDriveI2C, serial);
      forall i | 0 <= i < |cfg.channels|
        ensures r.1.drives[i].name == cfg.channels[i].1 && 0 <= cfg.channels[i].0 < McuDriver.MaxChannels
      {
        ChannelsRunTable(ans, m, cfg.channels, |cfg.channels|, cfg.haveDriveI2C, serial, i);
      }
    }
  }

  /** A refresh that replaced the table took it from the channel read. */
  lemma RefreshedTable(ans: seq<Answer>, k: nat, cfg: Config, v: Snapshot, serial: map<string, string>)
    requires var r := RefreshRun(ans, k, cfg, v, serial); r.2 && r.1.drives != v.drives
    ensures var m := k + 1 + |Prelude(ans, k + 1, v).0|;
      ChannelsRun(ans, m, cfg.channels, |cfg.channels|, cfg.haveDriveI2C, serial).1 ==
        Some(RefreshRun(ans, k, cfg, v, serial).1.drives)
  {
  }

  /** A failed refresh keeps the table, and a known version is kept. */
  lemma RefreshKeeps(ans: seq<Answer>, k: nat, cfg: Config, v: Snapshot, serial: map<string, string>)
    ensures var r := RefreshRun(ans, k, cfg, v, serial);
      (!r.2 ==> r.1.drives == v.drives) && (v.version != "" ==> r.1.version == v.version)
  {
  }

  /** findChannelByDriveSN with an empty serial number matches the first
    * drive without one (any drive but an NVMe one read over drive I2C),
    * when its slot still reads no serial. */
  lemma LookupEmptySerial(drives: seq<Drive>, current: map<string, string>)
    requires drives != [] && drives[0].sn == "" && drives[0].name !in current
    ensures Lookup(drives, "", current) == (drives[0].name, false)
  {
  }
}
