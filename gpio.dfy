/**
 * The GPIO configuration calls `io_expander_init` makes on the expander's I2C
 * pins. Each call is recorded; whether it succeeds is scripted.
 */
module Gpio {
  /** The two lines of the bus: IO_EXPANDER_I2C_SCL_PIN and IO_EXPANDER_I2C_SDA_PIN. */
  datatype Pin = Scl | Sda

  datatype Call =
    | EnablePort                  // gpio_enable_port(IO_EXPANDER_GPIO_BASE)
    | DigitalEnable(pin: Pin)     // gpio_config_digital_enable
    | AlternateFunction(pin: Pin) // gpio_config_alternate_function
    | PortControl(pin: Pin)       // gpio_config_port_control with the pin's PCTL mask and value
    | OpenDrain(pin: Pin)         // gpio_config_open_drain

  /** The scripted answer of call number `i`; calls beyond the script succeed. */
  function AnswerAt(answers: seq<bool>, i: nat): bool
  {
    i >= |answers| || answers[i]
  }

  class Port {
    var calls: seq<Call>
    var answers: seq<bool>
    var used: nat

    constructor (answers: seq<bool>)
      ensures this.calls == [] && this.answers == answers && used == 0
    {
      calls, this.answers, used := [], answers, 0;
    }

    method Request(c: Call) returns (ok: bool)
      modifies this`calls, this`used
      ensures calls == old(calls) + [c] && used == old(used) + 1
      ensures ok == AnswerAt(answers, old(used))
    {
      ok := AnswerAt(answers, used);
      calls := calls + [c];
      used := used + 1;
    }
  }
}
