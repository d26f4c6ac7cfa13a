/**
 * The I2C master peripheral named by `i2c_base`, with the MCP23017 attached to
 * its bus. Its operations are foreign calls whose answers the model scripts:
 * whether the base address is valid, the ACK seen after each address phase, and
 * the status codes of address settings and byte transfers. A send framed
 * START|RUN|STOP is a whole one-byte transaction and answers from a script of
 * its own, apart from the sends inside longer transactions. The device takes a
 * byte only from a send that succeeds.
 */
module I2cMaster {
  import opened Stdint
  import opened I2c
  import Mcp23017

  /** A snapshot of the master, its scripts and the attached device. */
  datatype Bus = Bus(
    baseValid: bool,            // i2cVerifyBaseAddr(i2c_base)
    dir: Dir,                   // the R/W bit last set by a successful i2cSetSlaveAddr
    armed: bool,                // initializeI2CMaster has succeeded
    trace: seq<Event>,          // every call made so far
    acks: seq<bool>,            // answers of I2CMasterAdrAck, one per query; NACK once used up
    addrAnswers: seq<Uint8>,    // status of each i2cSetSlaveAddr on a valid base; I2C_OK once used up
    sendAnswers: seq<Uint8>,    // status of each i2cSendByte within a longer transaction on a valid base; I2C_OK once used up
    singleAnswers: seq<Uint8>,  // status of each one-byte i2cSendByte (START|RUN|STOP) on a valid base; I2C_OK once used up
    getAnswers: seq<Uint8>,     // status of each i2cGetByte on a valid base; I2C_OK once used up
    initAnswer: Uint8,          // status of initializeI2CMaster
    stale: Uint8,               // what an uninitialised `data` holds when i2cGetByte does not store a byte
    dev: Mcp23017.Device)

  datatype Step = Step(bus: Bus, status: Uint8)
  datatype Received = Received(bus: Bus, status: Uint8, data: Uint8)
  datatype Acked = Acked(bus: Bus, ack: bool)

  /** i2cSetSlaveAddr: fails with I2C_INVALID_BASE on a bad base, otherwise answers from its script. */
  function SetAddrStep(b: Bus, d: Dir): Step
  {
    var status := if b.baseValid then NextOr(b.addrAnswers, I2C_OK) else I2C_INVALID_BASE;
    Step(b.(trace := b.trace + [SetAddr(d)],
            addrAnswers := Rest(b.addrAnswers),
            dir := if status == I2C_OK then d else b.dir),
         status)
  }

  /**
   * i2cSendByte: answers from the one-byte script when framed START|RUN|STOP and
   * from the send script otherwise; in write mode, a send that succeeds
   * delivers the byte to the device.
   */
  function SendStep(b: Bus, v: Uint8, f: Flags): Step
  {
    var single := f == START_RUN_STOP;
    var script := if single then b.singleAnswers else b.sendAnswers;
    var status := if b.baseValid then NextOr(script, I2C_OK) else I2C_INVALID_BASE;
    Step(b.(trace := b.trace + [SendByte(v, f)],
            sendAnswers := if single then b.sendAnswers else Rest(b.sendAnswers),
            singleAnswers := if single then Rest(b.singleAnswers) else b.singleAnswers,
            dev := if status == I2C_OK && b.dir == Write then Mcp23017.Receive(b.dev, v, f) else b.dev),
         status)
  }

  /**
   * i2cGetByte: in read mode, a receive that succeeds yields the device's
   * selected register; otherwise `data` keeps whatever byte it held.
   */
  function GetStep(b: Bus, f: Flags): Received
  {
    var status := if b.baseValid then NextOr(b.getAnswers, I2C_OK) else I2C_INVALID_BASE;
    Received(b.(trace := b.trace + [GetByte(f)], getAnswers := Rest(b.getAnswers)),
             status,
             if status == I2C_OK && b.dir == Read then Mcp23017.Transmit(b.dev) else b.stale)
  }

  /** I2CMasterAdrAck: consumes one scripted answer; an exhausted script never ACKs. */
  function AckStep(b: Bus): Acked
  {
    Acked(b.(acks := Rest(b.acks)), b.acks != [] && b.acks[0])
  }

  /** A busy-wait that has ended: transfers in this model complete synchronously. */
  function IdleStep(b: Bus): Bus
  {
    b.(trace := b.trace + [Idle])
  }

  /** initializeI2CMaster: arms the master when its status is I2C_OK. */
  function InitStep(b: Bus): Step
  {
    Step(b.(trace := b.trace + [MasterInit], armed := b.initAnswer == I2C_OK), b.initAnswer)
  }

  class Master {
    var baseValid: bool
    var dir: Dir
    var armed: bool
    var trace: seq<Event>
    var acks: seq<bool>
    var addrAnswers: seq<Uint8>
    var sendAnswers: seq<Uint8>
    var singleAnswers: seq<Uint8>
    var getAnswers: seq<Uint8>
    var initAnswer: Uint8
    var stale: Uint8
    var dev: Mcp23017.Device

    function Snap(): Bus
      reads this
    {
      Bus(baseValid, dir, armed, trace, acks, addrAnswers, sendAnswers, singleAnswers, getAnswers, initAnswer, stale, dev)
    }

    constructor (b: Bus)
      ensures Snap() == b
    {
      baseValid, dir, armed, trace := b.baseValid, b.dir, b.armed, b.trace;
      acks, addrAnswers, sendAnswers, getAnswers := b.acks, b.addrAnswers, b.sendAnswers, b.getAnswers;
      singleAnswers, initAnswer, stale, dev := b.singleAnswers, b.initAnswer, b.stale, b.dev;
    }

    /** i2cVerifyBaseAddr(i2c_base). */
    method VerifyBaseAddr() returns (ok: bool)
      ensures ok == baseValid
    {
      ok := baseValid;
    }

    method SetSlaveAddr(d: Dir) returns (status: Uint8)
      modifies this
      ensures Snap() == SetAddrStep(old(Snap()), d).bus
      ensures status == SetAddrStep(old(Snap()), d).status
    {
      status := if baseValid then NextOr(addrAnswers, I2C_OK) else I2C_INVALID_BASE;
      trace := trace + [SetAddr(d)];
      addrAnswers := Rest(addrAnswers);
      if status == I2C_OK {
        dir := d;
      }
    }

    method Send(v: Uint8, f: Flags) returns (status: Uint8)
      modifies this
      ensures Snap() == SendStep(old(Snap()), v, f).bus
      ensures status == SendStep(old(Snap()), v, f).status
    {
      if f == START_RUN_STOP {
        status := if baseValid then NextOr(singleAnswers, I2C_OK) else I2C_INVALID_BASE;
        singleAnswers := Rest(singleAnswers);
      } else {
        status := if baseValid then NextOr(sendAnswers, I2C_OK) else I2C_INVALID_BASE;
        sendAnswers := Rest(sendAnswers);
      }
      if status == I2C_OK && dir == Write {
        dev := Mcp23017.Receive(dev, v, f);
      }
      trace := trace + [SendByte(v, f)];
    }

    /** i2cGetByte; `data` stands for the byte written through its `uint8_t *` out-parameter. */
    method Get(f: Flags) returns (status: Uint8, data: Uint8)
      modifies this
      ensures Snap() == GetStep(old(Snap()), f).bus
      ensures status == GetStep(old(Snap()), f).status
      ensures data == GetStep(old(Snap()), f).data
    {
      status := if baseValid then NextOr(getAnswers, I2C_OK) else I2C_INVALID_BASE;
      data := if status == I2C_OK && dir == Read then Mcp23017.Transmit(dev) else stale;
      trace := trace + [GetByte(f)];
      getAnswers := Rest(getAnswers);
    }

    method AdrAck() returns (ack: bool)
      modifies this
      ensures Snap() == AckStep(old(Snap())).bus
      ensures ack == AckStep(old(Snap())).ack
    {
      ack := acks != [] && acks[0];
      acks := Rest(acks);
    }

    method WaitWhileBusy()
      modifies this
      ensures Snap() == IdleStep(old(Snap()))
    {
      trace := trace + [Idle];
    }

    method Initialize() returns (status: Uint8)
      modifies this
      ensures Snap() == InitStep(old(Snap())).bus
      ensures status == InitStep(old(Snap())).status
    {
      status := initAnswer;
      armed := status == I2C_OK;
      trace := trace + [MasterInit];
    }
  }
}
