// The backplane MCU as the firmware sequencers and the backplane controller
// see it: a driver behind the BackplaneMCUDriver interface whose calls may
// fail. What the device answers is an oracle indexed by the number of calls
// made so far, and every call is recorded in a trace. The concrete V0 and V1
// drivers over the I2C transport are modelled in McuV0 and McuV1.
module McuApi {
  import opened Wrappers
  import opened McuDriver

  /** One call through the driver interface; `Open` is the backplaneMCU
    * factory, which creates a new driver for the same device. */
  datatype Call =
    | Open
    | GetFwVersion
    | GetBoardType
    | EraseFlash
    | WriteFlash(data: seq<Byte>)
    | Reboot
    | Ping
    | IsStateChanged(cache: bv32)
    | DrivePresent(ch: nat)
    | DriveFailured(ch: nat)
    | GetDriveType(ch: nat)
    | SetDriveLocationLED(ch: nat, on: bool)
    | GetDriveLocationLED(ch: nat)
    | ResetDriveLocationLEDs
    | SetHostPowerState(on: bool)

  /** What the device answers to one call: whether the call fails (throws),
    * the text a query returns, the truth value a test returns, the drive
    * type, and the fingerprint isStateChanged stores into the cache. */
  datatype Answer = Answer(fails: bool, text: string, flag: bool, kind: DriveType, cache: bv32)

  /** Once its script runs out, the device no longer answers: every call
    * fails and queries read nothing. */
  const Silent: Answer := Answer(true, "", false, DriveType.Unknown, 0)

  /** The answer to the k-th call of a script. */
  function At(script: seq<Answer>, k: nat): Answer
  {
    if k < |script| then script[k] else Silent
  }

  /** The outcome of a command that returns nothing. */
  function Done(a: Answer): (r: Result<()>)
    ensures r.Ok? <==> !a.fails
  {
    if a.fails then Err(CommFailure) else Ok(())
  }

  /** The outcome of a command that returns a truth value. */
  function Test(a: Answer): (r: Result<bool>)
    ensures r.Ok? <==> !a.fails
    ensures r.Ok? ==> r.value == a.flag
  {
    if a.fails then Err(CommFailure) else Ok(a.flag)
  }

  /** `t1` is `t0` with more calls after it. */
  predicate Extended(t0: seq<Call>, t1: seq<Call>)
  {
    |t0| <= |t1| && t1[..|t0|] == t0
  }

  class Mcu {
    /** The device's answers, call by call. */
    const answers: seq<Answer>
    /** Every call made so far. */
    var trace: seq<Call>

    constructor (answers: seq<Answer>)
      ensures this.answers == answers && trace == []
    {
      this.answers := answers;
      trace := [];
    }

    /** The answer the next call gets. */
    function Next(): Answer
      reads this
    {
      At(answers, |trace|)
    }

    /** backplaneMCU: fails with the initialisation error. */
    method Open() returns (r: Result<()>)
      modifies this`trace
      ensures trace == old(trace) + [Call.Open]
      ensures r == if old(Next()).fails then Err(InitFailure) else Ok(())
    {
      var a := Next();
      trace := trace + [Call.Open];
      r := if a.fails then Err(InitFailure) else Ok(());
    }

    /** getFwVersion never throws: a failed read gives "". */
    method GetFwVersion() returns (version: string)
      modifies this`trace
      ensures trace == old(trace) + [Call.GetFwVersion]
      ensures version == old(Next()).text
    {
      version := Next().text;
      trace := trace + [Call.GetFwVersion];
    }

    method GetBoardType() returns (boardType: string)
      modifies this`trace
      ensures trace == old(trace) + [Call.GetBoardType]
      ensures boardType == old(Next()).text
    {
      boardType := Next().text;
      trace := trace + [Call.GetBoardType];
    }

    method EraseFlash() returns (r: Result<()>)
      modifies this`trace
      ensures trace == old(trace) + [Call.EraseFlash]
      ensures r == Done(old(Next()))
    {
      r := Done(Next());
      trace := trace + [Call.EraseFlash];
    }

    method WriteFlash(data: seq<Byte>) returns (r: Result<()>)
      modifies this`trace
      ensures trace == old(trace) + [Call.WriteFlash(data)]
      ensures r == Done(old(Next()))
    {
      r := Done(Next());
      trace := trace + [Call.WriteFlash(data)];
    }

    method Reboot() returns (r: Result<()>)
      modifies this`trace
      ensures trace == old(trace) + [Call.Reboot]
      ensures r == Done(old(Next()))
    {
      r := Done(Next());
      trace := trace + [Call.Reboot];
    }

    /** ping never throws: it tells whether the MCU answered. */
    method Ping() returns (alive: bool)
      modifies this`trace
      ensures trace == old(trace) + [Call.Ping]
      ensures alive == !old(Next()).fails
    {
      alive := !Next().fails;
      trace := trace + [Call.Ping];
    }

    /** isStateChanged: the new cache is the scripted answer's; the concrete
      * drivers overwrite it only once both register reads have succeeded. */
    method IsStateChanged(cache: bv32) returns (r: Result<bool>, newCache: bv32)
      modifies this`trace
      ensures trace == old(trace) + [Call.IsStateChanged(cache)]
      ensures r == Test(old(Next())) && newCache == old(Next()).cache
    {
      var a := Next();
      r, newCache := Test(a), a.cache;
      trace := trace + [Call.IsStateChanged(cache)];
    }

    method DrivePresent(ch: nat) returns (r: Result<bool>)
      requires ch < MaxChannels
      modifies this`trace
      ensures trace == old(trace) + [Call.DrivePresent(ch)]
      ensures r == Test(old(Next()))
    {
      r := Test(Next());
      trace := trace + [Call.DrivePresent(ch)];
    }

    method DriveFailured(ch: nat) returns (r: Result<bool>)
      requires ch < MaxChannels
      modifies this`trace
      ensures trace == old(trace) + [Call.DriveFailured(ch)]
      ensures r == Test(old(Next()))
    {
      r := Test(Next());
      trace := trace + [Call.DriveFailured(ch)];
    }

    method DriveType(ch: nat) returns (r: Result<DriveType>)
      requires ch < MaxChannels
      modifies this`trace
      ensures trace == old(trace) + [Call.GetDriveType(ch)]
      ensures r == if old(Next()).fails then Err(CommFailure) else Ok(old(Next()).kind)
    {
      var a := Next();
      r := if a.fails then Err(CommFailure) else Ok(a.kind);
      trace := trace + [Call.GetDriveType(ch)];
    }

    method SetDriveLocationLED(ch: nat, on: bool) returns (r: Result<()>)
      requires ch < MaxChannels
      modifies this`trace
      ensures trace == old(trace) + [Call.SetDriveLocationLED(ch, on)]
      ensures r == Done(old(Next()))
    {
      r := Done(Next());
      trace := trace + [Call.SetDriveLocationLED(ch, on)];
    }

    method GetDriveLocationLED(ch: nat) returns (r: Result<bool>)
      requires ch < MaxChannels
      modifies this`trace
      ensures trace == old(trace) + [Call.GetDriveLocationLED(ch)]
      ensures r == Test(old(Next()))
    {
      r := Test(Next());
      trace := trace + [Call.GetDriveLocationLED(ch)];
    }

    method ResetDriveLocationLEDs() returns (r: Result<()>)
      modifies this`trace
      ensures trace == old(trace) + [Call.ResetDriveLocationLEDs]
      ensures r == Done(old(Next()))
    {
      r := Done(Next());
      trace := trace + [Call.ResetDriveLocationLEDs];
    }

    method SetHostPowerState(on: bool) returns (r: Result<()>)
      modifies this`trace
      ensures trace == old(trace) + [Call.SetHostPowerState(on)]
      ensures r == Done(old(Next()))
    {
      r := Done(Next());
      trace := trace + [Call.SetHostPowerState(on)];
    }
  }
}
