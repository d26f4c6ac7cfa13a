/**
 * The MCP23017 register driver: the acknowledge poll, one-register write and
 * read, and the initialisation sequence, over the I2C master `i2c_base` names.
 */
module IoExpander {
  import opened Stdint
  import opened I2c
  import opened I2cMaster
  import Mcp23017
  import Gpio

  // ---------------------------------------------------------------------------
  // The ACK script

  /** Some later address phase is ACKed: the acknowledge poll terminates. */
  predicate HasAck(a: seq<bool>)
  {
    a != [] && (a[0] || HasAck(a[1..]))
  }

  /** The number of NACKed polls before the first ACK. */
  function FirstAck(a: seq<bool>): (k: nat)
    requires HasAck(a)
    ensures k < |a| && a[k]
    ensures forall j :: 0 <= j < k ==> !a[j]
  {
    if a[0] then 0 else 1 + FirstAck(a[1..])
  }

  /** The ACK script left once a poll has seen its ACK. */
  function AfterAck(a: seq<bool>): seq<bool>
    requires HasAck(a)
  {
    a[FirstAck(a) + 1..]
  }

  /** The script lets `n` acknowledge polls in a row terminate. */
  predicate AcksFor(a: seq<bool>, n: nat)
    decreases n
  {
    n == 0 || (HasAck(a) && AcksFor(AfterAck(a), n - 1))
  }

  /** Every answer of a status script is I2C_OK. */
  predicate AllOk(s: seq<Uint8>)
  {
    forall i :: 0 <= i < |s| ==> s[i] == I2C_OK
  }

  /**
   * A healthy bus: a valid base, and every address setting, every send inside
   * a longer transaction and every receive succeeds. The one-byte sends are
   * left free: the drivers' only such sends are the poll's probes, and no
   * driver acts on their status.
   */
  predicate Healthy(b: Bus)
  {
    b.baseValid && AllOk(b.addrAnswers) && AllOk(b.sendAnswers) && AllOk(b.getAnswers)
  }

  lemma DropRest<T>(s: seq<T>, n: nat)
    ensures Drop(Rest(s), n) == Drop(s, n + 1)
  {
  }

  /** The status the `i`-th one-byte i2cSendByte returns, counted from the state `b`. */
  function SingleStatus(b: Bus, i: nat): Uint8
  {
    if b.baseValid then NextOr(Drop(b.singleAnswers, i), I2C_OK) else I2C_INVALID_BASE
  }

  /** The status the `i`-th i2cSetSlaveAddr returns, counted from the state `b`. */
  function AddrStatus(b: Bus, i: nat): Uint8
  {
    if b.baseValid then NextOr(Drop(b.addrAnswers, i), I2C_OK) else I2C_INVALID_BASE
  }

  // ---------------------------------------------------------------------------
  // io_expander_wait_for_write

  /** `n` passes of the poll loop: a throwaway 0x00 framed START|RUN|STOP, then the busy-wait. */
  function PollFrames(n: nat): (t: seq<Event>)
    ensures |t| == 2 * n
  {
    if n == 0 then [] else [SendByte(0x00, START_RUN_STOP), Idle] + PollFrames(n - 1)
  }

  /** The do-while loop from its next pass on; the status is that of the last send. */
  function PollFrom(b: Bus): (r: Step)
    requires HasAck(b.acks)
    ensures r.bus.acks == AfterAck(b.acks)
    ensures r.bus.baseValid == b.baseValid && r.bus.dir == b.dir
    decreases FirstAck(b.acks)
  {
    var s := SendStep(b, 0x00, START_RUN_STOP);
    var a := AckStep(IdleStep(s.bus));
    if a.ack then Step(a.bus, s.status)
    else
      assert a.bus.acks == b.acks[1..];
      PollFrom(a.bus)
  }

  /** io_expander_wait_for_write, on the master's state before the call. */
  function Poll(b: Bus): Step
    requires b.baseValid ==> HasAck(b.acks)
  {
    if !b.baseValid then Step(b, I2C_INVALID_BASE)
    else PollFrom(SetAddrStep(b, Write).bus)
  }

  lemma PollFramesCons(pre: seq<Event>, n: nat)
    ensures pre + [SendByte(0x00, START_RUN_STOP), Idle] + PollFrames(n) == pre + PollFrames(n + 1)
  {
    assert PollFrames(n + 1) == [SendByte(0x00, START_RUN_STOP), Idle] + PollFrames(n);
  }

  /** One pass of the loop on its own: it adds one throwaway frame to the trace and consumes one ACK. */
  lemma PassTrace(b: Bus)
    ensures var a := AckStep(IdleStep(SendStep(b, 0x00, START_RUN_STOP).bus));
      && a.bus.trace == b.trace + [SendByte(0x00, START_RUN_STOP), Idle]
      && a.bus.acks == Rest(b.acks) && a.ack == (b.acks != [] && b.acks[0])
  {
  }

  /** The poll issues one throwaway frame per pass, one more pass than there are NACKs before the ACK. */
  lemma {:induction false} PollFromTrace(b: Bus)
    requires HasAck(b.acks)
    ensures PollFrom(b).bus.trace == b.trace + PollFrames(FirstAck(b.acks) + 1)
    decreases FirstAck(b.acks)
  {
    var s := SendStep(b, 0x00, START_RUN_STOP);
    var a := AckStep(IdleStep(s.bus));
    PassTrace(b);
    if !a.ack {
      assert a.bus.acks == b.acks[1..];
      var k := FirstAck(a.bus.acks);
      assert FirstAck(b.acks) == k + 1;
      assert PollFrom(b) == PollFrom(a.bus);
      PollFromTrace(a.bus);
      PollFramesCons(b.trace, k + 1);
    } else {
      assert PollFrom(b) == Step(a.bus, s.status);
      assert PollFrames(1) == [SendByte(0x00, START_RUN_STOP), Idle];
    }
  }

  /** Each pass consumes one answer of the one-byte script. */
  lemma {:induction false} PollFromAnswers(b: Bus)
    requires HasAck(b.acks)
    ensures PollFrom(b).bus.singleAnswers == Drop(b.singleAnswers, FirstAck(b.acks) + 1)
    decreases FirstAck(b.acks)
  {
    var s := SendStep(b, 0x00, START_RUN_STOP);
    var a := AckStep(IdleStep(s.bus));
    assert a.bus.singleAnswers == Rest(b.singleAnswers);
    if !a.ack {
      assert a.bus.acks == b.acks[1..];
      assert PollFrom(b) == PollFrom(a.bus);
      PollFromAnswers(a.bus);
      DropRest(b.singleAnswers, FirstAck(a.bus.acks) + 1);
    } else {
      assert PollFrom(b) == Step(a.bus, s.status);
    }
  }

  /** The poll returns the status of its last send. */
  lemma {:induction false} PollFromStatus(b: Bus)
    requires HasAck(b.acks)
    ensures PollFrom(b).status == SingleStatus(b, FirstAck(b.acks))
    decreases FirstAck(b.acks)
  {
    var s := SendStep(b, 0x00, START_RUN_STOP);
    var a := AckStep(IdleStep(s.bus));
    assert a.bus.singleAnswers == Rest(b.singleAnswers) && a.bus.baseValid == b.baseValid;
    if !a.ack {
      assert a.bus.acks == b.acks[1..];
      assert PollFrom(b) == PollFrom(a.bus);
      PollFromStatus(a.bus);
      DropRest(b.singleAnswers, FirstAck(a.bus.acks));
    } else {
      assert PollFrom(b) == Step(a.bus, s.status);
    }
  }

  /**
   * The probes change no register: a probe that gets through, framed START,
   * only selects register 0x00, and the one whose success the poll returns did.
   * The poll leaves the address, send and receive scripts and the set-up alone.
   */
  lemma {:induction false} PollFromDevice(b: Bus)
    requires HasAck(b.acks)
    ensures var r := PollFrom(b);
      && r.bus.dev.regs == b.dev.regs
      && (r.bus.dev.pointer == b.dev.pointer || r.bus.dev.pointer == 0x00)
      && (r.status == I2C_OK && b.dir == Write ==> r.bus.dev.pointer == 0x00)
      && r.bus.addrAnswers == b.addrAnswers && r.bus.sendAnswers == b.sendAnswers
      && r.bus.getAnswers == b.getAnswers && r.bus.stale == b.stale
      && r.bus.armed == b.armed && r.bus.initAnswer == b.initAnswer
    decreases FirstAck(b.acks)
  {
    var s := SendStep(b, 0x00, START_RUN_STOP);
    var a := AckStep(IdleStep(s.bus));
    assert a.bus.dev.regs == b.dev.regs && (a.bus.dev.pointer == b.dev.pointer || a.bus.dev.pointer == 0x00);
    assert s.status == I2C_OK && b.dir == Write ==> a.bus.dev.pointer == 0x00;
    assert a.bus.dir == b.dir && a.bus.baseValid == b.baseValid && a.bus.sendAnswers == b.sendAnswers;
    if !a.ack {
      assert a.bus.acks == b.acks[1..];
      assert PollFrom(b) == PollFrom(a.bus);
      PollFromDevice(a.bus);
    } else {
      assert PollFrom(b) == Step(a.bus, s.status);
    }
  }

  /**
   * The loop makes exactly one more pass than there are NACKs before the first
   * ACK, each pass one throwaway frame; it consumes the ACK script up to and
   * including that ACK and one one-byte answer per pass, and returns the status
   * of the last send.
   */
  lemma PollFromShape(b: Bus)
    requires HasAck(b.acks)
    ensures var r, n := PollFrom(b), FirstAck(b.acks) + 1;
      && r.bus.trace == b.trace + PollFrames(n)
      && r.bus.acks == b.acks[n..]
      && r.bus.singleAnswers == Drop(b.singleAnswers, n)
      && r.bus.dev.regs == b.dev.regs
      && r.bus.addrAnswers == b.addrAnswers && r.bus.sendAnswers == b.sendAnswers
      && r.bus.getAnswers == b.getAnswers && r.bus.stale == b.stale
      && r.bus.armed == b.armed && r.bus.initAnswer == b.initAnswer
      && r.status == SingleStatus(b, n - 1)
  {
    PollFromTrace(b);
    PollFromAnswers(b);
    PollFromStatus(b);
    PollFromDevice(b);
  }

  /** The `i`-th event of a run of poll passes: probes at even places, busy-waits at odd ones. */
  lemma {:induction false} PollFramesAt(n: nat)
    ensures forall i :: 0 <= i < 2 * n ==>
      PollFrames(n)[i] == if i % 2 == 0 then SendByte(0x00, START_RUN_STOP) else Idle
  {
    if n > 0 {
      PollFramesAt(n - 1);
      var t := PollFrames(n);
      assert t == [SendByte(0x00, START_RUN_STOP), Idle] + PollFrames(n - 1);
      forall i | 2 <= i < 2 * n
        ensures t[i] == if i % 2 == 0 then SendByte(0x00, START_RUN_STOP) else Idle
      {
        assert t[i] == PollFrames(n - 1)[i - 2];
      }
    }
  }

  /**
   * The calls the acknowledge poll makes on the master: none on a bad base;
   * otherwise the write-mode address setting, then a probe and a busy-wait
   * for each NACK before the first ACK and once more for the ACK itself.
   */
  function PollTrace(b: Bus): (t: seq<Event>)
    requires b.baseValid ==> HasAck(b.acks)
    ensures !b.baseValid ==> t == []
    ensures b.baseValid ==> |t| == 2 * FirstAck(b.acks) + 3 && t[0] == SetAddr(Write)
    ensures forall i :: 0 < i < |t| ==> t[i] == if i % 2 == 1 then SendByte(0x00, START_RUN_STOP) else Idle
  {
    if b.baseValid then
      PollFramesAt(FirstAck(b.acks) + 1);
      [SetAddr(Write)] + PollFrames(FirstAck(b.acks) + 1)
    else []
  }

  /**
   * On a bad base the poll returns I2C_INVALID_BASE and calls nothing more; on a
   * good one it sets the address once, in write mode, and then loops until an ACK.
   */
  lemma PollShape(b: Bus)
    requires b.baseValid ==> HasAck(b.acks)
    ensures !b.baseValid ==> Poll(b) == Step(b, I2C_INVALID_BASE)
    ensures Poll(b).bus.trace == b.trace + PollTrace(b)
    ensures Poll(b).bus.acks == if b.baseValid then AfterAck(b.acks) else b.acks
    ensures Poll(b).bus.addrAnswers == Drop(b.addrAnswers, if b.baseValid then 1 else 0)
    ensures Poll(b).bus.baseValid == b.baseValid && Poll(b).bus.armed == b.armed
    ensures Poll(b).bus.initAnswer == b.initAnswer
  {
    if b.baseValid {
      PollGoodTrace(b);
      PollGoodSetup(b);
      DropRest(b.addrAnswers, 0);
    }
  }

  lemma PollGoodTrace(b: Bus)
    requires b.baseValid && HasAck(b.acks)
    ensures Poll(b).bus.trace == b.trace + PollTrace(b)
  {
    var s := SetAddrStep(b, Write).bus;
    PollFromTrace(s);
    AppendAssoc(b.trace, [SetAddr(Write)], PollFrames(FirstAck(b.acks) + 1));
  }

  lemma PollGoodSetup(b: Bus)
    requires b.baseValid && HasAck(b.acks)
    ensures Poll(b).bus.addrAnswers == Rest(b.addrAnswers)
    ensures Poll(b).bus.armed == b.armed && Poll(b).bus.initAnswer == b.initAnswer
  {
    var s := SetAddrStep(b, Write);
    assert s.bus.acks == b.acks && s.bus.addrAnswers == Rest(b.addrAnswers);
    PollFromDevice(s.bus);
  }

  /** The poll makes no i2cGetByte call: the receive script is untouched. */
  lemma PollKeepsReceive(b: Bus)
    requires b.baseValid ==> HasAck(b.acks)
    ensures Poll(b).bus.getAnswers == b.getAnswers && Poll(b).bus.stale == b.stale
  {
    if b.baseValid {
      PollFromDevice(SetAddrStep(b, Write).bus);
    }
  }

  /** io_expander_wait_for_write. */
  method WaitForWrite(m: Master) returns (status: Uint8)
    requires m.baseValid ==> HasAck(m.acks)
    modifies m
    ensures !old(m.baseValid) ==> status == I2C_INVALID_BASE && m.Snap() == old(m.Snap())
    ensures Step(m.Snap(), status) == Poll(old(m.Snap()))
  {
    var valid := m.VerifyBaseAddr();
    if !valid {
      return I2C_INVALID_BASE;
    }
    status := m.SetSlaveAddr(Write);
    ghost var start := m.Snap();
    var acked := false;
    while !acked
      invariant !acked ==> HasAck(m.acks) && PollFrom(m.Snap()) == PollFrom(start)
      invariant acked ==> Step(m.Snap(), status) == PollFrom(start)
      decreases if acked then 0 else FirstAck(m.acks) + 1
    {
      ghost var before := m.Snap();
      status := m.Send(0x00, START_RUN_STOP);
      m.WaitWhileBusy();
      acked := m.AdrAck();
      assert !acked ==> m.acks == before.acks[1..];
    }
  }

  // ---------------------------------------------------------------------------
  // io_expander_write_reg

  /** io_expander_write_reg(reg, data), on the master's state before the call. */
  function WriteRegSpec(b: Bus, reg: Uint8, data: Uint8): (r: Bus)
    requires b.baseValid ==> HasAck(b.acks)
    ensures r.baseValid == b.baseValid
    ensures r.acks == if b.baseValid then AfterAck(b.acks) else b.acks
  {
    var s1 := SetAddrStep(IdleStep(b), Write);
    var p := Poll(s1.bus);
    var s2 := SendStep(p.bus, reg, START_RUN);
    SendStep(s2.bus, data, RUN_STOP).bus
  }

  method WriteReg(m: Master, reg: Uint8, data: Uint8)
    requires m.baseValid ==> HasAck(m.acks)
    modifies m
    ensures m.Snap() == WriteRegSpec(old(m.Snap()), reg, data)
  {
    m.WaitWhileBusy();
    var status := m.SetSlaveAddr(Write);
    if status != I2C_OK {
      // the status is dropped: the write carries on
    }
    var polled := WaitForWrite(m);
    var sent := m.Send(reg, START_RUN);
    sent := m.Send(data, RUN_STOP);
  }

  /**
   * The calls of a register write, in order: busy-wait, write address, the poll,
   * the selector framed START|RUN and the data byte framed RUN|STOP. The last two
   * go out whatever the address setting and the poll returned.
   */
  lemma WriteRegShape(b: Bus, reg: Uint8, data: Uint8)
    requires b.baseValid ==> HasAck(b.acks)
    ensures var r := WriteRegSpec(b, reg, data);
      && r.trace == b.trace + [Idle, SetAddr(Write)] + PollTrace(b)
                    + [SendByte(reg, START_RUN), SendByte(data, RUN_STOP)]
      && r.addrAnswers == Drop(b.addrAnswers, if b.baseValid then 2 else 1)
      && r.armed == b.armed && r.initAnswer == b.initAnswer
  {
    var s1 := SetAddrStep(IdleStep(b), Write);
    assert s1.bus.trace == b.trace + [Idle, SetAddr(Write)];
    assert s1.bus.addrAnswers == Rest(b.addrAnswers) && s1.bus.acks == b.acks;
    assert s1.bus.baseValid == b.baseValid && s1.bus.armed == b.armed && s1.bus.initAnswer == b.initAnswer;
    PollShape(s1.bus);
    var p := Poll(s1.bus);
    assert PollTrace(s1.bus) == PollTrace(b);
    assert p.bus.trace == b.trace + [Idle, SetAddr(Write)] + PollTrace(b);
    DropRest(b.addrAnswers, 0);
    DropRest(b.addrAnswers, 1);
    assert p.bus.addrAnswers == Drop(b.addrAnswers, if b.baseValid then 2 else 1);
    var s2 := SendStep(p.bus, reg, START_RUN);
    var s3 := SendStep(s2.bus, data, RUN_STOP);
    assert WriteRegSpec(b, reg, data) == s3.bus;
  }

  /**
   * On a healthy bus, the address setting and the poll of a write leave the bus
   * healthy and in write mode, whatever the probes returned.
   */
  lemma WritePolled(b: Bus)
    requires Healthy(b) && HasAck(b.acks)
    ensures var p := Poll(SetAddrStep(IdleStep(b), Write).bus);
      && Healthy(p.bus) && p.bus.dir == Write
      && p.bus.dev.regs == b.dev.regs && p.bus.stale == b.stale
  {
    var s1 := SetAddrStep(IdleStep(b), Write);
    AllOkRest(b.addrAnswers);
    var s0 := SetAddrStep(s1.bus, Write);
    AllOkRest(Rest(b.addrAnswers));
    assert s0.bus.dir == Write && s0.bus.sendAnswers == b.sendAnswers && s0.bus.acks == b.acks;
    PollFromShape(s0.bus);
    assert Poll(s1.bus) == PollFrom(s0.bus);
  }

  /**
   * On a healthy bus where the poll ends, the write stores `data` in register
   * `reg` and nowhere else, whatever its probes returned, and the bus stays
   * healthy.
   */
  lemma WriteRegStores(b: Bus, reg: Uint8, data: Uint8)
    requires Healthy(b) && HasAck(b.acks)
    ensures var r := WriteRegSpec(b, reg, data);
      && r.dir == Write && Healthy(r) && r.stale == b.stale
      && r.dev.regs == b.dev.regs[reg := data] && r.dev.pointer == reg
  {
    WritePolled(b);
    var p := Poll(SetAddrStep(IdleStep(b), Write).bus);
    var s2 := SendStep(p.bus, reg, START_RUN);
    AllOkRest(p.bus.sendAnswers);
    assert s2.status == I2C_OK && s2.bus.dev.regs == b.dev.regs && s2.bus.dev.pointer == reg;
    var s3 := SendStep(s2.bus, data, RUN_STOP);
    AllOkRest(s2.bus.sendAnswers);
    assert WriteRegSpec(b, reg, data) == s3.bus;
  }

  // ---------------------------------------------------------------------------
  // io_expander_read_reg

  /** What io_expander_read_reg returns, with the master's state after it. */
  datatype ReadResult = ReadResult(bus: Bus, value: Uint8)

  /**
   * io_expander_read_reg(reg), on the master's state before the call. A failed
   * address setting returns its status code as the register value.
   */
  function ReadRegSpec(b: Bus, reg: Uint8): ReadResult
    requires b.baseValid ==> HasAck(b.acks)
  {
    var p := Poll(IdleStep(b));
    var s1 := SetAddrStep(p.bus, Write);
    if s1.status != I2C_OK then ReadResult(s1.bus, s1.status)
    else
      var s2 := SendStep(s1.bus, reg, START_RUN);
      var s3 := SetAddrStep(s2.bus, Read);
      if s3.status != I2C_OK then ReadResult(s3.bus, s3.status)
      else
        var g := GetStep(s3.bus, START_RUN_STOP);
        ReadResult(g.bus, g.data)
  }

  method ReadReg(m: Master, reg: Uint8) returns (value: Uint8)
    requires m.baseValid ==> HasAck(m.acks)
    modifies m
    ensures ReadResult(m.Snap(), value) == ReadRegSpec(old(m.Snap()), reg)
  {
    m.WaitWhileBusy();
    var polled := WaitForWrite(m);
    var status := m.SetSlaveAddr(Write);
    if status != I2C_OK {
      return status;
    }
    var sent := m.Send(reg, START_RUN);
    status := m.SetSlaveAddr(Read);
    if status != I2C_OK {
      return status;
    }
    var got, data := m.Get(START_RUN_STOP);
    return data;
  }

  /**
   * The calls of a register read: busy-wait, the poll, then write address,
   * selector (START|RUN), read address and one received byte (START|RUN|STOP).
   * A failing address setting ends the call at once and its status is returned.
   */
  lemma ReadRegShape(b: Bus, reg: Uint8)
    requires b.baseValid ==> HasAck(b.acks)
    ensures var r := ReadRegSpec(b, reg);
      var pre := b.trace + [Idle] + PollTrace(b);
      var k := if b.baseValid then 1 else 0;
      var first, second := AddrStatus(b, k), AddrStatus(b, k + 1);
      && (first != I2C_OK ==> r.value == first && r.bus.trace == pre + [SetAddr(Write)])
      && (first == I2C_OK && second != I2C_OK ==>
            r.value == second && r.bus.trace == pre + [SetAddr(Write), SendByte(reg, START_RUN), SetAddr(Read)])
      && (first == I2C_OK && second == I2C_OK ==>
            r.bus.trace == pre + [SetAddr(Write), SendByte(reg, START_RUN), SetAddr(Read), GetByte(START_RUN_STOP)])
      && r.bus.acks == (if b.baseValid then AfterAck(b.acks) else b.acks)
  {
    var k := if b.baseValid then 1 else 0;
    if AddrStatus(b, k) != I2C_OK {
      ReadStopsAtWrite(b, reg);
    } else if AddrStatus(b, k + 1) != I2C_OK {
      ReadStopsAtRead(b, reg);
    } else {
      ReadCompletes(b, reg);
    }
  }

  /** The write-mode address setting of the read: its status, and the state after it. */
  lemma ReadFirstAddress(b: Bus)
    requires b.baseValid ==> HasAck(b.acks)
    ensures var s1, k := SetAddrStep(Poll(IdleStep(b)).bus, Write), if b.baseValid then 1 else 0;
      && s1.status == AddrStatus(b, k)
      && s1.bus.addrAnswers == Drop(b.addrAnswers, k + 1) && s1.bus.baseValid == b.baseValid
      && s1.bus.trace == b.trace + [Idle] + PollTrace(b) + [SetAddr(Write)]
      && s1.bus.acks == (if b.baseValid then AfterAck(b.acks) else b.acks)
  {
    ReadPollShape(b);
    var k := if b.baseValid then 1 else 0;
    DropRest(b.addrAnswers, k);
  }

  lemma ReadStopsAtWrite(b: Bus, reg: Uint8)
    requires b.baseValid ==> HasAck(b.acks)
    requires AddrStatus(b, if b.baseValid then 1 else 0) != I2C_OK
    ensures var r := ReadRegSpec(b, reg);
      && r.value == AddrStatus(b, if b.baseValid then 1 else 0)
      && r.bus.trace == b.trace + [Idle] + PollTrace(b) + [SetAddr(Write)]
      && r.bus.acks == (if b.baseValid then AfterAck(b.acks) else b.acks)
  {
    ReadFirstAddress(b);
  }

  lemma ReadStopsAtRead(b: Bus, reg: Uint8)
    requires b.baseValid ==> HasAck(b.acks)
    requires var k := if b.baseValid then 1 else 0;
      AddrStatus(b, k) == I2C_OK && AddrStatus(b, k + 1) != I2C_OK
    ensures var r, k := ReadRegSpec(b, reg), if b.baseValid then 1 else 0;
      && r.value == AddrStatus(b, k + 1)
      && r.bus.trace == b.trace + [Idle] + PollTrace(b) + [SetAddr(Write), SendByte(reg, START_RUN), SetAddr(Read)]
      && r.bus.acks == (if b.baseValid then AfterAck(b.acks) else b.acks)
  {
    ReadFirstAddress(b);
    var s1 := SetAddrStep(Poll(IdleStep(b)).bus, Write);
    var s3 := SetAddrStep(SendStep(s1.bus, reg, START_RUN).bus, Read);
    assert s3.status == AddrStatus(b, (if b.baseValid then 1 else 0) + 1);
    assert ReadRegSpec(b, reg) == ReadResult(s3.bus, s3.status);
  }

  lemma ReadCompletes(b: Bus, reg: Uint8)
    requires b.baseValid ==> HasAck(b.acks)
    requires var k := if b.baseValid then 1 else 0;
      AddrStatus(b, k) == I2C_OK && AddrStatus(b, k + 1) == I2C_OK
    ensures var r := ReadRegSpec(b, reg);
      && r.bus.trace == b.trace + [Idle] + PollTrace(b)
           + [SetAddr(Write), SendByte(reg, START_RUN), SetAddr(Read), GetByte(START_RUN_STOP)]
      && r.bus.acks == (if b.baseValid then AfterAck(b.acks) else b.acks)
  {
    ReadFirstAddress(b);
    var s1 := SetAddrStep(Poll(IdleStep(b)).bus, Write);
    var s3 := SetAddrStep(SendStep(s1.bus, reg, START_RUN).bus, Read);
    assert s3.status == AddrStatus(b, (if b.baseValid then 1 else 0) + 1);
  }

  /** The busy-wait and the poll that open io_expander_read_reg. */
  lemma ReadPollShape(b: Bus)
    requires b.baseValid ==> HasAck(b.acks)
    ensures var p, k := Poll(IdleStep(b)), if b.baseValid then 1 else 0;
      && p.bus.baseValid == b.baseValid && p.bus.addrAnswers == Drop(b.addrAnswers, k)
      && p.bus.trace == b.trace + [Idle] + PollTrace(b)
      && p.bus.acks == (if b.baseValid then AfterAck(b.acks) else b.acks)
  {
    PollShape(IdleStep(b));
  }

  // ---------------------------------------------------------------------------
  // Write/read round trip against the simulated MCP23017

  lemma AllOkRest(s: seq<Uint8>)
    requires AllOk(s)
    ensures AllOk(Rest(s)) && NextOr(s, I2C_OK) == I2C_OK
  {
  }

  /**
   * On a healthy bus where the poll ends, the read gets as far as the receive:
   * both address settings and the selector succeed, whatever the probes
   * returned, leaving the expander in read mode at register `reg`.
   */
  lemma ReadAddressed(b: Bus, reg: Uint8) returns (s3: Step)
    requires Healthy(b) && HasAck(b.acks)
    ensures var s1 := SetAddrStep(Poll(IdleStep(b)).bus, Write);
      && s1.status == I2C_OK
      && s3 == SetAddrStep(SendStep(s1.bus, reg, START_RUN).bus, Read) && s3.status == I2C_OK
      && s3.bus.dir == Read && s3.bus.dev.pointer == reg && s3.bus.dev.regs == b.dev.regs && Healthy(s3.bus)
  {
    var i := IdleStep(b);
    var s0 := SetAddrStep(i, Write);
    AllOkRest(b.addrAnswers);
    assert s0.status == I2C_OK && s0.bus.dir == Write && s0.bus.dev == b.dev;
    PollFromShape(s0.bus);
    var p := Poll(i);
    assert p == PollFrom(s0.bus);
    assert p.bus.dev.regs == b.dev.regs && p.bus.dir == Write && p.bus.baseValid;
    assert p.bus.addrAnswers == Rest(b.addrAnswers) && p.bus.getAnswers == b.getAnswers;
    assert p.bus.sendAnswers == b.sendAnswers;
    var s1 := SetAddrStep(p.bus, Write);
    AllOkRest(Rest(b.addrAnswers));
    assert s1.status == I2C_OK;
    var s2 := SendStep(s1.bus, reg, START_RUN);
    AllOkRest(b.sendAnswers);
    assert s2.status == I2C_OK;
    assert s2.bus.dev.pointer == reg && s2.bus.dev.regs == b.dev.regs;
    s3 := SetAddrStep(s2.bus, Read);
    AllOkRest(Rest(Rest(b.addrAnswers)));
  }

  /**
   * On a healthy bus where the poll ends, a read returns the register, changes
   * no register and leaves the bus healthy.
   */
  lemma ReadRegHealthy(b: Bus, reg: Uint8)
    requires Healthy(b) && HasAck(b.acks)
    ensures var r := ReadRegSpec(b, reg);
      && r.value == Mcp23017.Reg(b.dev, reg)
      && r.bus.dev.regs == b.dev.regs && Healthy(r.bus)
  {
    var s3 := ReadAddressed(b, reg);
    var g := GetStep(s3.bus, START_RUN_STOP);
    AllOkRest(s3.bus.getAnswers);
    assert g.status == I2C_OK;
    assert ReadRegSpec(b, reg) == ReadResult(g.bus, g.data);
  }

  /**
   * Writing `v` to register `reg` and reading `reg` back returns `v`; the write
   * changed that register only, and the read changed none. The probes of both
   * polls may fail.
   */
  lemma WriteThenRead(b: Bus, reg: Uint8, v: Uint8)
    requires Healthy(b) && HasAck(b.acks) && HasAck(AfterAck(b.acks))
    ensures var r := ReadRegSpec(WriteRegSpec(b, reg, v), reg);
      r.value == v && r.bus.dev.regs == b.dev.regs[reg := v]
  {
    WriteRegStores(b, reg, v);
    var w := WriteRegSpec(b, reg, v);
    ReadRegHealthy(w, reg);
    assert Mcp23017.Reg(w.dev, reg) == v;
  }

  /**
   * A busy device that NACKs the first probe of each poll, with every probe
   * reporting a failed send: the round trip still returns the written value
   * (2 stands for any failing status).
   */
  lemma BusyRoundTrip(dev: Mcp23017.Device, reg: Uint8, v: Uint8)
    ensures var b := Bus(true, Write, true, [], [false, true, false, true], [], [], [2, 2, 2, 2], [], I2C_OK, 0x00, dev);
      && Healthy(b) && !AllOk(b.singleAnswers)
      && ReadRegSpec(WriteRegSpec(b, reg, v), reg).value == v
  {
    var b := Bus(true, Write, true, [], [false, true, false, true], [], [], [2, 2, 2, 2], [], I2C_OK, 0x00, dev);
    assert b.singleAnswers[0] != I2C_OK;
    assert HasAck(b.acks[2..]) by { assert b.acks[2..][1..] == [true]; }
    assert HasAck(b.acks) by { assert b.acks[1..] == [true, false, true]; }
    assert FirstAck(b.acks) == 1 && AfterAck(b.acks) == [false, true];
    WriteThenRead(b, reg, v);
  }

  // ---------------------------------------------------------------------------
  // A read with separate error and data channels

  datatype ReadOutcome = Data(value: Uint8) | Failed(status: Uint8)
  datatype CheckedRead = CheckedRead(bus: Bus, outcome: ReadOutcome)

  /** The status the first i2cGetByte returns, counted from the state `b`. */
  function GetStatus(b: Bus): Uint8
  {
    if b.baseValid then NextOr(b.getAnswers, I2C_OK) else I2C_INVALID_BASE
  }

  /**
   * io_expander_read_reg with a failed address setting or receive reported as
   * such, not as a register value.
   */
  function ReadRegChecked(b: Bus, reg: Uint8): CheckedRead
    requires b.baseValid ==> HasAck(b.acks)
  {
    var p := Poll(IdleStep(b));
    var s1 := SetAddrStep(p.bus, Write);
    if s1.status != I2C_OK then CheckedRead(s1.bus, Failed(s1.status))
    else
      var s2 := SendStep(s1.bus, reg, START_RUN);
      var s3 := SetAddrStep(s2.bus, Read);
      if s3.status != I2C_OK then CheckedRead(s3.bus, Failed(s3.status))
      else
        var g := GetStep(s3.bus, START_RUN_STOP);
        CheckedRead(g.bus, if g.status != I2C_OK then Failed(g.status) else Data(g.data))
  }

  /**
   * The checked read makes the same calls as the original. It reports a failure
   * exactly when an address setting or the receive failed; a failed address
   * setting's status is what the original returns as data, and otherwise the
   * checked read reports the byte the original returns.
   */
  lemma ReadRegCheckedSeparates(b: Bus, reg: Uint8)
    requires b.baseValid ==> HasAck(b.acks)
    ensures var c, r := ReadRegChecked(b, reg), ReadRegSpec(b, reg);
      var k := if b.baseValid then 1 else 0;
      var addrFailed := AddrStatus(b, k) != I2C_OK || AddrStatus(b, k + 1) != I2C_OK;
      && c.bus == r.bus
      && (c.outcome.Failed? <==> addrFailed || GetStatus(b) != I2C_OK)
      && (c.outcome.Failed? ==> c.outcome.status != I2C_OK)
      && (addrFailed ==> c.outcome.Failed? && c.outcome.status == r.value)
      && (c.outcome.Data? ==> c.outcome.value == r.value)
  {
    var p := Poll(IdleStep(b));
    PollShape(IdleStep(b));
    PollKeepsReceive(IdleStep(b));
    var k := if b.baseValid then 1 else 0;
    assert p.bus.baseValid == b.baseValid && p.bus.addrAnswers == Drop(b.addrAnswers, k);
    var s1 := SetAddrStep(p.bus, Write);
    assert s1.status == AddrStatus(b, k);
    assert s1.bus.addrAnswers == Drop(b.addrAnswers, k + 1) by {
      DropRest(b.addrAnswers, k);
    }
    if s1.status == I2C_OK {
      var s3 := SetAddrStep(SendStep(s1.bus, reg, START_RUN).bus, Read);
      assert s3.status == AddrStatus(b, k + 1);
    }
  }

  /** With the checked read the round trip yields the written value as data. */
  lemma WriteThenReadChecked(b: Bus, reg: Uint8, v: Uint8)
    requires Healthy(b) && HasAck(b.acks) && HasAck(AfterAck(b.acks))
    ensures ReadRegChecked(WriteRegSpec(b, reg, v), reg).outcome == Data(v)
  {
    WriteThenRead(b, reg, v);
    WriteRegStores(b, reg, v);
    var w := WriteRegSpec(b, reg, v);
    ReadRegCheckedSeparates(w, reg);
    AllOkRest(w.addrAnswers);
    AllOkRest(Rest(w.addrAnswers));
    AllOkRest(w.getAnswers);
    DropRest(w.addrAnswers, 0);
    DropRest(w.addrAnswers, 1);
  }

  /**
   * As written, a read on a bad base and a successful read of a register that
   * holds 0x01 return the same byte: I2C_INVALID_BASE doubles as data.
   */
  lemma ReadRegConflatesStatus()
    ensures var dev := Mcp23017.Device(map[0x00 := I2C_INVALID_BASE], 0x00);
      var bad := Bus(false, Write, true, [], [], [], [], [], [], I2C_OK, 0x00, dev);
      var good := bad.(baseValid := true, acks := [true]);
      && ReadRegSpec(bad, 0x00).value == I2C_INVALID_BASE
      && ReadRegSpec(good, 0x00).value == I2C_INVALID_BASE
      && ReadRegChecked(bad, 0x00).outcome == Failed(I2C_INVALID_BASE)
      && ReadRegChecked(good, 0x00).outcome == Data(I2C_INVALID_BASE)
  {
    var dev := Mcp23017.Device(map[0x00 := I2C_INVALID_BASE], 0x00);
    var bad := Bus(false, Write, true, [], [], [], [], [], [], I2C_OK, 0x00, dev);
    var good := bad.(baseValid := true, acks := [true]);
    assert HasAck(good.acks) by { assert good.acks[0]; }
    ReadRegHealthy(good, 0x00);
    ReadRegCheckedSeparates(good, 0x00);
    ReadRegCheckedSeparates(bad, 0x00);
  }

  // ---------------------------------------------------------------------------
  // io_expander_init

  /** The GPIO calls of io_expander_init, in order: the port, then SCL, then SDA. */
  const InitSteps: seq<Gpio.Call> := [
    Gpio.EnablePort,
    Gpio.DigitalEnable(Gpio.Scl), Gpio.AlternateFunction(Gpio.Scl), Gpio.PortControl(Gpio.Scl),
    Gpio.DigitalEnable(Gpio.Sda), Gpio.OpenDrain(Gpio.Sda), Gpio.AlternateFunction(Gpio.Sda),
    Gpio.PortControl(Gpio.Sda)]

  /** The register writes of io_expander_init, in order: port B as pulled-up interrupting inputs, port A as outputs. */
  const ConfigWrites: seq<(Uint8, Uint8)> := [
    (Mcp23017.IODIRB, 0x0F), (Mcp23017.DEFVALB, 0x0F), (Mcp23017.GPPUB, 0x0F),
    (Mcp23017.GPINTENB, 0x0F), (Mcp23017.IODIRA, 0x00)]

  /** GPIO step `j` of io_expander_init succeeds when the port has already answered `used` calls. */
  predicate StepOk(answers: seq<bool>, used: nat, j: nat)
  {
    Gpio.AnswerAt(answers, used + j)
  }

  /**
   * The index of the first GPIO step from `i` on whose call fails, given the
   * port's answers and the number of calls already answered; |InitSteps| if none.
   */
  function GpioFailure(answers: seq<bool>, used: nat, i: nat): (k: nat)
    requires i <= |InitSteps|
    ensures i <= k <= |InitSteps|
    ensures forall j :: i <= j < k ==> StepOk(answers, used, j)
    ensures k < |InitSteps| ==> !StepOk(answers, used, k)
    decreases |InitSteps| - i
  {
    if i == |InitSteps| then i
    else if !StepOk(answers, used, i) then i
    else GpioFailure(answers, used, i + 1)
  }

  /** A sequence of io_expander_write_reg calls. */
  function WriteAll(b: Bus, ws: seq<(Uint8, Uint8)>): (r: Bus)
    requires b.baseValid ==> AcksFor(b.acks, |ws|)
    ensures r.baseValid == b.baseValid
    decreases |ws|
  {
    if ws == [] then b else WriteAll(WriteRegSpec(b, ws[0].0, ws[0].1), ws[1..])
  }

  /** One step of WriteAll: the first write, then the rest. */
  lemma WriteAllFirst(b: Bus, ws: seq<(Uint8, Uint8)>)
    requires ws != [] && (b.baseValid ==> AcksFor(b.acks, |ws|))
    ensures b.baseValid ==> HasAck(b.acks)
    ensures var n := WriteRegSpec(b, ws[0].0, ws[0].1);
      && (n.baseValid ==> AcksFor(n.acks, |ws[1..]|))
      && WriteAll(b, ws) == WriteAll(n, ws[1..])
  {
  }

  /**
   * The events of a trace that move data: bytes sent other than the
   * single-byte poll probe, bytes received, and the master's set-up.
   */
  predicate IsPayload(e: Event)
  {
    match e
    case SendByte(_, f) => f != START_RUN_STOP
    case GetByte(_) => true
    case MasterInit => true
    case _ => false
  }

  function Payload(t: seq<Event>): (p: seq<Event>)
    ensures |p| <= |t|
  {
    if t == [] then [] else (if IsPayload(t[0]) then [t[0]] else []) + Payload(t[1..])
  }

  lemma {:induction false} PayloadAppend(s: seq<Event>, t: seq<Event>)
    ensures Payload(s + t) == Payload(s) + Payload(t)
  {
    if s == [] {
      assert s + t == t;
    } else {
      var st := s + t;
      assert st[0] == s[0] && st[1..] == s[1..] + t;
      PayloadAppend(s[1..], t);
      assert Payload(st) == (if IsPayload(s[0]) then [s[0]] else []) + Payload(s[1..] + t);
    }
  }

  /** Poll probes carry no payload. */
  lemma {:induction false} PollFramesPayload(n: nat)
    ensures Payload(PollFrames(n)) == []
  {
    if n > 0 {
      PayloadAppend([SendByte(0x00, START_RUN_STOP), Idle], PollFrames(n - 1));
      PollFramesPayload(n - 1);
    }
  }

  lemma PollTracePayload(b: Bus)
    requires b.baseValid ==> HasAck(b.acks)
    ensures Payload(PollTrace(b)) == []
  {
    if b.baseValid {
      PayloadAppend([SetAddr(Write)], PollFrames(FirstAck(b.acks) + 1));
      PollFramesPayload(FirstAck(b.acks) + 1);
    }
  }

  /** The events io_expander_write_reg appends to the trace. */
  function WriteEvents(b: Bus, reg: Uint8, data: Uint8): seq<Event>
    requires b.baseValid ==> HasAck(b.acks)
  {
    [Idle, SetAddr(Write)] + PollTrace(b) + [SendByte(reg, START_RUN), SendByte(data, RUN_STOP)]
  }

  /** io_expander_write_reg appends exactly its events to the trace. */
  lemma WriteRegEvents(b: Bus, reg: Uint8, data: Uint8)
    requires b.baseValid ==> HasAck(b.acks)
    ensures WriteRegSpec(b, reg, data).trace == b.trace + WriteEvents(b, reg, data)
  {
    WriteRegShape(b, reg, data);
  }

  /** The payload of io_expander_write_reg is the register selector followed by the data byte. */
  lemma WriteRegPayload(b: Bus, reg: Uint8, data: Uint8)
    requires b.baseValid ==> HasAck(b.acks)
    ensures Payload(WriteEvents(b, reg, data)) == [SendByte(reg, START_RUN), SendByte(data, RUN_STOP)]
  {
    var head, probes := [Idle, SetAddr(Write)], PollTrace(b);
    var tail := [SendByte(reg, START_RUN), SendByte(data, RUN_STOP)];
    PollTracePayload(b);
    PayloadAppend(head + probes, tail);
    PayloadAppend(head, probes);
    assert Payload(head) == [];
    assert Payload(tail) == tail;
  }

  /** io_expander_write_reg does not touch the master's set-up. */
  lemma WriteRegKeepsSetup(b: Bus, reg: Uint8, data: Uint8)
    requires b.baseValid ==> HasAck(b.acks)
    ensures WriteRegSpec(b, reg, data).armed == b.armed
    ensures WriteRegSpec(b, reg, data).initAnswer == b.initAnswer
  {
    WriteRegShape(b, reg, data);
  }

  /** The selector and data frames of a sequence of register writes. */
  function WriteFrames(ws: seq<(Uint8, Uint8)>): (t: seq<Event>)
    ensures |t| == 2 * |ws|
  {
    if ws == [] then [] else [SendByte(ws[0].0, START_RUN), SendByte(ws[0].1, RUN_STOP)] + WriteFrames(ws[1..])
  }

  /** The events a run of io_expander_write_reg calls appends to the trace. */
  function WritesEvents(b: Bus, ws: seq<(Uint8, Uint8)>): seq<Event>
    requires b.baseValid ==> AcksFor(b.acks, |ws|)
    decreases |ws|
  {
    if ws == [] then []
    else WriteEvents(b, ws[0].0, ws[0].1) + WritesEvents(WriteRegSpec(b, ws[0].0, ws[0].1), ws[1..])
  }

  lemma AppendAssoc(s: seq<Event>, t: seq<Event>, u: seq<Event>)
    ensures s + t + u == s + (t + u)
  {
  }

  /** A run of writes appends its events to the trace. */
  lemma {:induction false} WriteAllTrace(b: Bus, ws: seq<(Uint8, Uint8)>)
    requires b.baseValid ==> AcksFor(b.acks, |ws|)
    ensures WriteAll(b, ws).trace == b.trace + WritesEvents(b, ws)
    decreases |ws|
  {
    if ws != [] {
      var n, rest := WriteRegSpec(b, ws[0].0, ws[0].1), ws[1..];
      WriteAllFirst(b, ws);
      WriteRegEvents(b, ws[0].0, ws[0].1);
      WriteAllTrace(n, rest);
      AppendAssoc(b.trace, WriteEvents(b, ws[0].0, ws[0].1), WritesEvents(n, rest));
    }
  }

  /** A run of writes leaves the master's set-up alone. */
  lemma {:induction false} WriteAllKeepsSetup(b: Bus, ws: seq<(Uint8, Uint8)>)
    requires b.baseValid ==> AcksFor(b.acks, |ws|)
    ensures WriteAll(b, ws).armed == b.armed && WriteAll(b, ws).initAnswer == b.initAnswer
    decreases |ws|
  {
    if ws != [] {
      WriteAllFirst(b, ws);
      WriteRegKeepsSetup(b, ws[0].0, ws[0].1);
      WriteAllKeepsSetup(WriteRegSpec(b, ws[0].0, ws[0].1), ws[1..]);
    }
  }

  /** The payload of a run of writes is its selector/data pairs, in order. */
  lemma {:induction false} WritesPayload(b: Bus, ws: seq<(Uint8, Uint8)>)
    requires b.baseValid ==> AcksFor(b.acks, |ws|)
    ensures Payload(WritesEvents(b, ws)) == WriteFrames(ws)
    decreases |ws|
  {
    if ws != [] {
      var n, rest := WriteRegSpec(b, ws[0].0, ws[0].1), ws[1..];
      WriteAllFirst(b, ws);
      WriteRegPayload(b, ws[0].0, ws[0].1);
      PayloadAppend(WriteEvents(b, ws[0].0, ws[0].1), WritesEvents(n, rest));
      WritesPayload(n, rest);
    }
  }

  /** The register file after a run of writes, each overwriting the last. */
  function ApplyWrites(regs: map<Uint8, Uint8>, ws: seq<(Uint8, Uint8)>): map<Uint8, Uint8>
    decreases |ws|
  {
    if ws == [] then regs else ApplyWrites(regs[ws[0].0 := ws[0].1], ws[1..])
  }

  /** On a healthy bus where every poll ends, a run of writes stores every value. */
  lemma {:induction false} WriteAllStores(b: Bus, ws: seq<(Uint8, Uint8)>)
    requires Healthy(b) && AcksFor(b.acks, |ws|)
    ensures WriteAll(b, ws).dev.regs == ApplyWrites(b.dev.regs, ws)
    decreases |ws|
  {
    if ws != [] {
      var n, rest := WriteRegSpec(b, ws[0].0, ws[0].1), ws[1..];
      WriteAllFirst(b, ws);
      WriteRegStores(b, ws[0].0, ws[0].1);
      WriteAllStores(n, rest);
    }
  }

  /**
   * io_expander_init's effect on the master when every GPIO step succeeds: the
   * master's set-up is its last call, and it is armed exactly when that set-up
   * returns I2C_OK.
   */
  function InitBus(b: Bus): (r: Bus)
    requires b.baseValid ==> AcksFor(b.acks, |ConfigWrites|)
    ensures r.trace != [] && r.trace[|r.trace| - 1] == MasterInit
    ensures r.armed == (b.initAnswer == I2C_OK)
  {
    WriteAllKeepsSetup(b, ConfigWrites);
    InitStep(WriteAll(b, ConfigWrites)).bus
  }

  /**
   * io_expander_init configures the expander before it sets up the master:
   * the payload is the five selector/data pairs in source order, then the set-up,
   * and the master ends up armed exactly when its set-up succeeds.
   */
  lemma InitWritesInOrder(b: Bus)
    requires b.baseValid ==> AcksFor(b.acks, |ConfigWrites|)
    ensures InitBus(b).trace == b.trace + WritesEvents(b, ConfigWrites) + [MasterInit]
    ensures Payload(WritesEvents(b, ConfigWrites)) == WriteFrames(ConfigWrites)
    ensures InitBus(b).armed == (b.initAnswer == I2C_OK)
  {
    WriteAllTrace(b, ConfigWrites);
    WriteAllKeepsSetup(b, ConfigWrites);
    WritesPayload(b, ConfigWrites);
  }

  /** The register file after the five writes of io_expander_init. */
  lemma ApplyConfigWrites(regs: map<Uint8, Uint8>)
    ensures ApplyWrites(regs, ConfigWrites)
      == regs[Mcp23017.IODIRB := 0x0F][Mcp23017.DEFVALB := 0x0F][Mcp23017.GPPUB := 0x0F]
             [Mcp23017.GPINTENB := 0x0F][Mcp23017.IODIRA := 0x00]
  {
    var ws := ConfigWrites;
    var r1 := regs[Mcp23017.IODIRB := 0x0F];
    var r2 := r1[Mcp23017.DEFVALB := 0x0F];
    var r3 := r2[Mcp23017.GPPUB := 0x0F];
    var r4 := r3[Mcp23017.GPINTENB := 0x0F];
    assert ApplyWrites(regs, ws) == ApplyWrites(r1, ws[1..]);
    assert ApplyWrites(r1, ws[1..]) == ApplyWrites(r2, ws[1..][1..]);
    assert ApplyWrites(r2, ws[1..][1..]) == ApplyWrites(r3, ws[1..][1..][1..]);
    assert ApplyWrites(r3, ws[1..][1..][1..]) == ApplyWrites(r4, ws[1..][1..][1..][1..]);
    var last := ws[1..][1..][1..][1..];
    assert last == [(Mcp23017.IODIRA, 0x00)];
    assert ApplyWrites(r4, last) == ApplyWrites(r4[Mcp23017.IODIRA := 0x00], last[1..]);
    assert last[1..] == [];
  }

  /**
   * On a healthy bus where every poll ends, io_expander_init
   * stores the five configuration values in source order and leaves every other
   * register of the expander as it was.
   */
  lemma InitConfiguresDevice(b: Bus)
    requires Healthy(b) && AcksFor(b.acks, |ConfigWrites|)
    ensures InitBus(b).dev.regs
      == b.dev.regs[Mcp23017.IODIRB := 0x0F][Mcp23017.DEFVALB := 0x0F][Mcp23017.GPPUB := 0x0F]
                   [Mcp23017.GPINTENB := 0x0F][Mcp23017.IODIRA := 0x00]
  {
    var w := WriteAll(b, ConfigWrites);
    assert InitBus(b).dev == w.dev;
    WriteAllStores(b, ConfigWrites);
    ApplyConfigWrites(b.dev.regs);
  }

  /** `rs` lists the master's state before each write of the run `ws`, and after the last. */
  predicate IsRun(rs: seq<Bus>, ws: seq<(Uint8, Uint8)>)
    decreases |ws|
  {
    && |rs| == |ws| + 1
    && (ws != [] ==>
          && (rs[0].baseValid ==> HasAck(rs[0].acks))
          && rs[1] == WriteRegSpec(rs[0], ws[0].0, ws[0].1)
          && IsRun(rs[1..], ws[1..]))
  }

  /** Each state of a run is the write of its pair to the state before. */
  lemma {:induction false} IsRunStep(rs: seq<Bus>, ws: seq<(Uint8, Uint8)>, k: nat)
    requires IsRun(rs, ws) && k < |ws|
    ensures rs[k].baseValid ==> HasAck(rs[k].acks)
    ensures rs[k + 1] == WriteRegSpec(rs[k], ws[k].0, ws[k].1)
    decreases k
  {
    if k > 0 {
      IsRunStep(rs[1..], ws[1..], k - 1);
    }
  }

  /** The states a run of writes goes through: it ends where WriteAll does. */
  lemma {:induction false} RunOf(b: Bus, ws: seq<(Uint8, Uint8)>) returns (rs: seq<Bus>)
    requires b.baseValid ==> AcksFor(b.acks, |ws|)
    ensures IsRun(rs, ws) && rs[0] == b && rs[|ws|] == WriteAll(b, ws)
    decreases |ws|
  {
    if ws == [] {
      rs := [b];
    } else {
      WriteAllFirst(b, ws);
      var tail := RunOf(WriteRegSpec(b, ws[0].0, ws[0].1), ws[1..]);
      rs := [b] + tail;
      assert rs[1..] == tail;
    }
  }

  /**
   * The five register writes of io_expander_init, in source order: one
   * io_expander_write_reg per entry of ConfigWrites.
   */
  method ConfigureRegisters(m: Master)
    requires m.baseValid ==> AcksFor(m.acks, |ConfigWrites|)
    modifies m
    ensures m.Snap() == WriteAll(old(m.Snap()), ConfigWrites)
  {
    ghost var rs := RunOf(m.Snap(), ConfigWrites);
    for i := 0 to |ConfigWrites|
      invariant m.Snap() == rs[i]
    {
      IsRunStep(rs, ConfigWrites, i);
      WriteReg(m, ConfigWrites[i].0, ConfigWrites[i].1);
    }
  }

  /**
   * GPIO step `i` of io_expander_init, after steps 0 to i - 1 have been made
   * and succeeded.
   */
  method RequestStep(g: Gpio.Port, ghost c0: seq<Gpio.Call>, ghost u: nat, i: nat) returns (ok: bool)
    requires i < |InitSteps| && i <= GpioFailure(g.answers, u, 0)
    requires g.calls == c0 + InitSteps[..i] && g.used == u + i
    modifies g`calls, g`used
    ensures g.calls == c0 + InitSteps[..i + 1] && g.used == u + i + 1
    ensures ok ==> i + 1 <= GpioFailure(g.answers, u, 0)
    ensures !ok ==> GpioFailure(g.answers, u, 0) == i
  {
    ok := g.Request(InitSteps[i]);
    assert InitSteps[..i + 1] == InitSteps[..i] + [InitSteps[i]];
  }

  /**
   * The GPIO calls made once io_expander_init has gone through steps up to
   * `hi - 1`, stopping at the first that fails; `k` is the index of that step
   * (GpioFailure), `c0` and `u` the port's calls and answers before step 0,
   * and `ok` says whether every step below `hi` succeeded.
   */
  predicate StepsMade(calls: seq<Gpio.Call>, used: nat, c0: seq<Gpio.Call>, u: nat, k: nat, hi: nat, ok: bool)
    requires hi <= |InitSteps|
  {
    && ok == (k >= hi)
    && (ok ==> calls == c0 + InitSteps[..hi] && used == u + hi)
    && (!ok ==> k < hi && calls == c0 + InitSteps[..k + 1] && used == u + k + 1)
  }

  /** The SCL steps of io_expander_init: digital enable, alternate function, port control. */
  method ConfigureScl(g: Gpio.Port, ghost c0: seq<Gpio.Call>, ghost u: nat) returns (ok: bool)
    requires 1 <= GpioFailure(g.answers, u, 0) && g.calls == c0 + InitSteps[..1] && g.used == u + 1
    modifies g`calls, g`used
    ensures StepsMade(g.calls, g.used, c0, u, GpioFailure(g.answers, u, 0), 4, ok)
  {
    ok := RequestStep(g, c0, u, 1);
    if !ok { return; }
    ok := RequestStep(g, c0, u, 2);
    if !ok { return; }
    ok := RequestStep(g, c0, u, 3);
  }

  /** The SDA steps of io_expander_init: digital enable, open drain, alternate function, port control. */
  method ConfigureSda(g: Gpio.Port, ghost c0: seq<Gpio.Call>, ghost u: nat) returns (ok: bool)
    requires 4 <= GpioFailure(g.answers, u, 0) && g.calls == c0 + InitSteps[..4] && g.used == u + 4
    modifies g`calls, g`used
    ensures StepsMade(g.calls, g.used, c0, u, GpioFailure(g.answers, u, 0), 8, ok)
  {
    ok := RequestStep(g, c0, u, 4);
    if !ok { return; }
    ok := RequestStep(g, c0, u, 5);
    if !ok { return; }
    ok := RequestStep(g, c0, u, 6);
    if !ok { return; }
    ok := RequestStep(g, c0, u, 7);
  }

  /**
   * The GPIO steps of io_expander_init: enable the port, then the SCL and the
   * SDA pin, stopping at the first call that fails.
   */
  method ConfigurePins(g: Gpio.Port) returns (ok: bool)
    modifies g`calls, g`used
    ensures var k := GpioFailure(g.answers, old(g.used), 0);
      && ok == (k == |InitSteps|)
      && (k < |InitSteps| ==> g.calls == old(g.calls) + InitSteps[..k + 1] && g.used == old(g.used) + k + 1)
      && (k == |InitSteps| ==> g.calls == old(g.calls) + InitSteps && g.used == old(g.used) + |InitSteps|)
  {
    ghost var u, c0 := g.used, g.calls;
    assert g.calls == c0 + InitSteps[..0];
    ok := RequestStep(g, c0, u, 0);
    if !ok { return; }
    ok := ConfigureScl(g, c0, u);
    if !ok { return; }
    ok := ConfigureSda(g, c0, u);
    assert InitSteps[..8] == InitSteps;
  }

  /**
   * io_expander_init: the GPIO steps, failing fast on the first refusal, then
   * the five register writes and the master's set-up, whose status decides.
   */
  method Init(m: Master, g: Gpio.Port) returns (ok: bool)
    requires (GpioFailure(g.answers, g.used, 0) == |InitSteps| && m.baseValid) ==> AcksFor(m.acks, |ConfigWrites|)
    modifies m, g`calls, g`used
    ensures var k := GpioFailure(g.answers, old(g.used), 0);
      && (k < |InitSteps| ==>
            && !ok && m.Snap() == old(m.Snap())
            && g.calls == old(g.calls) + InitSteps[..k + 1] && g.used == old(g.used) + k + 1)
      && (k == |InitSteps| ==>
            && g.calls == old(g.calls) + InitSteps && g.used == old(g.used) + |InitSteps|
            && m.Snap() == InitBus(old(m.Snap()))
            && ok == (old(m.initAnswer) == I2C_OK))
  {
    ghost var b0 := m.Snap();
    ok := ConfigurePins(g);
    if !ok {
      return false;
    }
    ConfigureRegisters(m);
    WriteAllKeepsSetup(b0, ConfigWrites);
    var status := m.Initialize();
    if status != I2C_OK {
      return false;
    }
    return true;
  }
}
