// backplaneMCU (mcu/backplane_mcu_driver.cpp, and its storage copy): opens the
// device and picks the protocol version from the MCU's identification byte.
module McuFactory {
  import opened Wrappers
  import opened McuDriver
  import I2c
  import McuV0
  import McuV1

  const GetTypeId: Byte := 0x00

  datatype Protocol = ProtocolV0 | ProtocolV1

  /** The protocol that answers an identification read on a device that
    * opened (`ok`), if any. */
  function ChooseProtocol(ok: bool, ident: int): (p: Option<Protocol>)
    ensures p == Some(ProtocolV0) <==> ok && ident == McuV0.IdentResp as int
    ensures p == Some(ProtocolV1) <==> ok && ident == McuV1.IdentResp as int
    ensures p.None? <==> !ok || ident !in {McuV0.IdentResp as int, McuV1.IdentResp as int}
  {
    if !ok then None
    else if ident == McuV0.IdentResp as int then Some(ProtocolV0)
    else if ident == McuV1.IdentResp as int then Some(ProtocolV1)
    else None
  }

  /** A driver of either version. */
  datatype Driver = DriverV0(v0: McuV0.ProtoV0) | DriverV1(v1: McuV1.ProtoV1)

  function DriverProtocol(d: Driver): Protocol
  {
    if d.DriverV0? then ProtocolV0 else ProtocolV1
  }

  function DriverDevice(d: Driver): I2c.I2cDev
  {
    if d.DriverV0? then d.v0.dev else d.v1.dev
  }

  /** Opens the device and reads its identification byte; a device that does
    * not open, or an answer that names no known protocol, fails with the
    * initialisation error. */
  method BackplaneMcu(setup: I2c.Setup, verbose: bool, bus: nat -> I2c.Reply)
    returns (r: Result<Driver>, ghost dev: I2c.I2cDev)
    ensures fresh(dev) && dev.bus == bus
    ensures !dev.ok ==> dev.history == [] && r == Err(InitFailure)
    ensures dev.ok ==> |dev.history| == 1 && dev.history[0].req == I2c.ReadByteData(GetTypeId)
    ensures dev.ok ==>
      match ChooseProtocol(true, dev.history[0].res)
      case None => r == Err(InitFailure)
      case Some(p) => r.Ok? && DriverProtocol(r.value) == p && DriverDevice(r.value) == dev
    ensures r.Ok? && r.value.DriverV0? ==> fresh(r.value.v0) && r.value.v0.dPresence == -1 && r.value.v0.dFailures == -1
    ensures r.Ok? && r.value.DriverV1? ==> fresh(r.value.v1) && r.value.v1.dPresence == -1 && r.value.v1.dFailures == -1 && r.value.v1.dTypes == -1
  {
    var d := new I2c.I2cDev(setup, false, verbose, bus);
    dev := d;
    if !d.ok {
      return Err(InitFailure), dev;
    }
    var res := ReadByteData(d, GetTypeId);
    match ChooseProtocol(true, res)
    case None =>
      r := Err(InitFailure);
    case Some(ProtocolV0) =>
      var v0 := new McuV0.ProtoV0(d);
      r := Ok(DriverV0(v0));
    case Some(ProtocolV1) =>
      var v1 := new McuV1.ProtoV1(d);
      r := Ok(DriverV1(v1));
  }
}
