/**
 * The vocabulary of the I2C master interface the MCP23017 driver is written over:
 * transfer direction, the frame flags of the master control register, the status
 * codes, and the events of a bus trace.
 */
module I2c {
  import opened Stdint

  /** `I2C_OK`: the call succeeded. The enumerators of `i2c_status_t` are numbered in declaration order. */
  const I2C_OK: Uint8 := 0
  /** `I2C_INVALID_BASE`: the base address does not name an I2C peripheral. */
  const I2C_INVALID_BASE: Uint8 := 1

  /** The R/W bit sent after the 7-bit slave address (`I2C_WRITE`, `I2C_READ`). */
  datatype Dir = Write | Read

  /** The `I2C_MCS_START`, `I2C_MCS_RUN` and `I2C_MCS_STOP` bits given with one byte transfer. */
  datatype Flags = Flags(start: bool, run: bool, stop: bool)

  /** A complete one-byte transaction: START, the byte, STOP. */
  const START_RUN_STOP := Flags(true, true, true)
  /** The first byte of a transaction that goes on. */
  const START_RUN := Flags(true, true, false)
  /** The last byte of a transaction already started. */
  const RUN_STOP := Flags(false, true, true)

  /** One call the driver makes into the I2C master, in the order it makes them. */
  datatype Event =
    | SetAddr(dir: Dir)                   // i2cSetSlaveAddr(base, MCP23017_DEV_ID, dir)
    | SendByte(value: Uint8, flags: Flags) // i2cSendByte(base, value, flags)
    | GetByte(flags: Flags)               // i2cGetByte(base, &data, flags)
    | Idle                                // a `while (I2CMasterBusy(base)) {}` spin that has ended
    | MasterInit                          // initializeI2CMaster(base)

  /** The next answer of a scripted collaborator, or `default` once the script is used up. */
  function NextOr<T>(s: seq<T>, default: T): T
  {
    if s == [] then default else s[0]
  }

  /** The script after one answer has been consumed. */
  function Rest<T>(s: seq<T>): (r: seq<T>)
    ensures |r| == if s == [] then 0 else |s| - 1
  {
    if s == [] then [] else s[1..]
  }

  /** The script after `n` answers have been consumed. */
  function Drop<T>(s: seq<T>, n: nat): (r: seq<T>)
    ensures n <= |s| ==> r == s[n..]
    ensures n >= |s| ==> r == []
  {
    if n >= |s| then [] else s[n..]
  }
}
