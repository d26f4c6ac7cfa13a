/**
 * A simulated MCP23017 I/O expander on the bus: a register file and the
 * register pointer that the first byte of a write transaction loads.
 */
module Mcp23017 {
  import opened Stdint
  import opened I2c

  // Register selectors with IOCON.BANK = 0, the power-on register layout.
  const IODIRA: Uint8 := 0x00
  const IODIRB: Uint8 := 0x01
  const GPINTENB: Uint8 := 0x05
  const DEFVALB: Uint8 := 0x07
  const GPPUB: Uint8 := 0x0D

  datatype Device = Device(regs: map<Uint8, Uint8>, pointer: Uint8)

  /** The value of register `r`; a register the model has never written reads as 0. */
  function Reg(d: Device, r: Uint8): Uint8
  {
    if r in d.regs then d.regs[r] else 0
  }

  /**
   * The device receives byte `v` in a write transaction: a byte framed with START
   * selects a register, any later byte is stored in the selected register.
   */
  function Receive(d: Device, v: Uint8, f: Flags): (r: Device)
    ensures f.start ==> r.pointer == v && r.regs == d.regs
    ensures !f.start ==> r.pointer == d.pointer && Reg(r, d.pointer) == v
    ensures forall q :: q != d.pointer ==> Reg(r, q) == Reg(d, q)
  {
    if f.start then d.(pointer := v) else d.(regs := d.regs[d.pointer := v])
  }

  /** The byte the device drives in a read transaction: the selected register. */
  function Transmit(d: Device): Uint8
  {
    Reg(d, d.pointer)
  }
}
