// The driver as the objects the program builds: the serial port and clock
// behind a scripted environment, and class SimpleSIM with its receive
// buffer, reset timestamp and hook chain. Every method is proved to leave
// the driver in the state the value model of modules Receiver and Commands
// computes from the state it started in.

module Modem {
  import opened SimTypes
  import opened Hooks
  import opened Receiver
  import opened Commands

  /**
   * The `Stream` and `millis()` the driver talks to. Input is the script of
   * observations still to come, `clock` the last clock reading, and `sent`
   * every byte written so far.
   */
  class Port {
    var script: seq<Event>
    var clock: u32
    ghost var sent: seq<byte>

    constructor (script: seq<Event>, clock: u32)
      ensures this.script == script && this.clock == clock && sent == []
    {
      this.script := script;
      this.clock := clock;
      sent := [];
    }

    /** available() */
    predicate Available()
      reads this
    {
      script != [] && script[0].Recv?
    }

    /** read(), when a byte is available. */
    method Read() returns (c: byte)
      requires Available()
      modifies this`script
      ensures c == old(script[0].c) && script == old(script[1..])
    {
      c := script[0].c;
      script := script[1..];
    }

    /** millis() in the poll loop when no byte is available: the next clock reading. */
    method Tick() returns (now: u32)
      requires script != [] && script[0].Idle?
      modifies this`script, this`clock
      ensures now == old(script[0].now) && clock == now && script == old(script[1..])
    {
      now := script[0].now;
      clock := now;
      script := script[1..];
    }

    /** millis() outside the poll loop: the last clock reading. */
    method Millis() returns (now: u32)
      ensures now == clock
    {
      now := clock;
    }

    /** print(s) of a C string. */
    method Print(s: seq<byte>)
      modifies this`sent
      ensures sent == old(sent) + CStr(s)
    {
      sent := sent + CStr(s);
    }

    /** write(b) */
    method Write(b: byte)
      modifies this`sent
      ensures sent == old(sent) + [b]
    {
      sent := sent + [b];
    }
  }

  /** class SimpleSIM */
  class SimpleSim {
    /** `m_s` */
    const port: Port
    /** `m_rx_buff`, SIM_RX_BUFF_SZ + 1 slots */
    const rxBuff: array<byte>
    /** `m_rx_len` */
    var rxLen: nat
    /** `m_rst_ts` */
    var rstTs: u32
    /** `m_hook_chain` */
    var hookChain: Hook?
    /** The hooks reachable from `hookChain`, newest first. */
    ghost var hooks: seq<Hook>

    ghost predicate Valid()
      reads this, hooks`next
    {
      rxBuff.Length == SIM_RX_STORAGE && rxLen <= SIM_RX_BUFF_SZ && ChainValid()
    }

    /** `m_hook_chain` heads the hooks, linked through `m_next` in order. */
    ghost predicate ChainValid()
      reads this`hookChain, this`hooks, hooks`next
    {
      hookChain == HookAt(hooks, 0) && WellFormed(hooks)
    }

    /** The hooks' values, newest first. */
    ghost function Chain(): (c: seq<HookState>)
      reads this`hooks, hooks`buff
      requires AllValid(hooks)
    {
      States(hooks)
    }

    /** The whole driver as a value of the model. */
    ghost function State(): (m: Machine)
      reads this, port, rxBuff, hooks`next, hooks`buff
      requires Valid()
      ensures m.Valid()
    {
      Machine(Rx(rxBuff[..], rxLen), Chain(), port.script, port.clock, port.sent)
    }

    /** SimpleSIM(s, rst_pin): no hooks, an empty line, reset timestamp 0. */
    constructor (port: Port)
      ensures Valid() && fresh(rxBuff)
      ensures this.port == port && rxLen == 0 && rstTs == 0 && hookChain == null && hooks == []
      ensures State().chain == [] && State().rx.len == 0
    {
      this.port := port;
      rxBuff := new byte[SIM_RX_STORAGE];
      rxLen := 0;
      rstTs := 0;
      hookChain := null;
      hooks := [];
    }

    /** add_hook(hook): the new hook heads the chain, the old chain follows it unchanged. */
    method AddHook(h: Hook)
      requires Valid() && h.Valid() && h !in hooks
      modifies this`hookChain, this`hooks, h`next
      ensures Valid() && hooks == [h] + old(hooks)
      ensures State() == old(State()).(chain := [h.State()] + old(State()).chain)
    {
      ghost var m := State();
      Link(h);
      assert State() == m.(chain := Chain());
    }

    /** The relinking of add_hook, on the chain alone. */
    method Link(h: Hook)
      requires ChainValid() && h.Valid() && h !in hooks
      modifies this`hookChain, this`hooks, h`next
      ensures ChainValid() && hooks == [h] + old(hooks)
      ensures Chain() == [h.State()] + old(Chain())
    {
      ghost var tail, before := hooks, Chain();
      h.next := hookChain;
      hookChain := h;
      hooks := [h] + hooks;
      ChainCons(h, tail);
      assert States(tail) == before;
    }

    /** begin(): the effect on the driver is the new reset timestamp. */
    method Begin()
      modifies this`rstTs
      ensures rstTs == port.clock
    {
      rstTs := port.Millis();
    }

    /** reset(): the effect on the driver is the new reset timestamp. */
    method Reset()
      modifies this`rstTs
      ensures rstTs == port.clock
    {
      rstTs := port.Millis();
    }

    /** The chain walk of wait_resp: the first hook that takes the line, newest first. */
    method OfferLine(line: seq<byte>)
      requires Valid()
      modifies hooks`buff
      ensures Valid() && Chain() == Dispatch(old(Chain()), line)
      ensures State() == old(State()).(chain := Chain())
    {
      ghost var before := Chain();
      OfferAlong(hookChain, hooks, before, line);
      ghost var after := Chain();
      assert forall j | 0 <= j < |hooks| :: after[j] == Dispatch(before, line)[j];
    }

    /**
     * The byte branch of the poll loop of wait_resp for the byte `c` just
     * read: the line accumulator. A closed line that is not a terminal one
     * has its `\r` replaced by the NUL that ends the C string, and is
     * returned for the hooks.
     */
    method TakeByte(c: byte) returns (ev: Feed)
      requires Valid()
      modifies rxBuff, this`rxLen
      ensures Valid()
      ensures Fed(Rx(rxBuff[..], rxLen), ev) == FeedByte(Rx(old(rxBuff[..]), old(rxLen)), c)
      ensures State() == old(State()).(rx := Rx(rxBuff[..], rxLen))
    {
      ghost var chain := Chain();
      ev := Accumulate(c);
      assert Chain() == chain;
    }

    /** The line accumulator of TakeByte, on the buffer alone. */
    method Accumulate(c: byte) returns (ev: Feed)
      requires rxBuff.Length == SIM_RX_STORAGE && rxLen <= SIM_RX_BUFF_SZ
      modifies rxBuff, this`rxLen
      ensures rxLen <= SIM_RX_BUFF_SZ
      ensures Fed(Rx(rxBuff[..], rxLen), ev) == FeedByte(Rx(old(rxBuff[..]), old(rxLen)), c)
    {
      ghost var rx := Rx(rxBuff[..], rxLen);
      if c == LF && rxLen > 0 && rxBuff[rxLen - 1] == CR {
        if rxLen == 3 && rxBuff[0] == 79 && rxBuff[1] == 75 {
          rxLen := 0;
          return Terminal(Ok);
        }
        if rxLen == 6 && rxBuff[0] == 69 && rxBuff[1] == 82 && rxBuff[2] == 82 && rxBuff[3] == 79 && rxBuff[4] == 82 {
          rxLen := 0;
          return Terminal(Err);
        }
        rxBuff[rxLen - 1] := NUL;
        ev := Line(rxBuff[..rxLen - 1]);
        assert ev.content == rx.buf[..rx.len - 1];
        rxLen := 0;
      } else {
        rxBuff[rxLen] := c;
        if rxLen < SIM_RX_BUFF_SZ {
          rxLen := rxLen + 1;
        }
        ev := Pass;
      }
    }

    /**
     * A byte is available: read it and feed it to the line; a closed line
     * that is not a terminal one goes along the hook chain.
     */
    method ByteStep(start: u32, tout: u32) returns (done: bool, out: Outcome)
      requires Valid() && port.Available()
      modifies port`script, rxBuff, this`rxLen, hooks`buff
      ensures Valid() && |port.script| < old(|port.script|)
      ensures State() == AfterByte(old(State()), old(port.script)[0].c)
      ensures done ==> Step(State(), out) == Poll(old(State()), start, tout)
      ensures !done ==> Poll(State(), start, tout) == Poll(old(State()), start, tout)
    {
      ghost var m := State();
      var c := port.Read();
      assert State() == m.(script := m.script[1..]);
      var ev := TakeByte(c);
      PollByte(m, start, tout, c);
      if ev.Line? {
        OfferLine(ev.content);
      }
      assert State() == AfterByte(m, c);
      if ev.Terminal? {
        return true, Returned(ev.result);
      }
      done, out := false, StillWaiting;
    }

    /**
     * No byte is available: read the clock; more than `tout` ms after
     * `start` the wait ends, with Prompt when the open line is the prompt
     * marker (which is then dropped) and with Tout otherwise.
     */
    method IdleStep(start: u32, tout: u32) returns (done: bool, out: Outcome)
      requires Valid() && port.script != [] && port.script[0].Idle?
      modifies port`script, port`clock, this`rxLen
      ensures Valid() && |port.script| < old(|port.script|)
      ensures !done ==> State() == old(State()).(script := old(port.script)[1..], clock := old(port.script)[0].now)
      ensures done ==> Step(State(), out) == Poll(old(State()), start, tout)
      ensures !done ==> Poll(State(), start, tout) == Poll(old(State()), start, tout)
    {
      ghost var m := State();
      var now := port.Tick();
      PollIdle(m, start, tout, now);
      if Since(now, start) > tout {
        if rxLen == 2 && rxBuff[0] == GT && rxBuff[1] == SPACE {
          rxLen := 0;
          return true, Returned(Prompt);
        }
        return true, Returned(Tout);
      }
      done, out := false, StillWaiting;
    }

    /**
     * wait_resp(tout): polls until `OK` or `ERROR` closes a line, or until
     * an idle poll finds more than `tout` ms passed since the start. A
     * script that ends while the driver still polls gives StillWaiting.
     */
    method WaitResp(tout: u32) returns (out: Outcome)
      requires Valid()
      modifies port`script, port`clock, rxBuff, this`rxLen, hooks`buff
      ensures Valid()
      ensures Step(State(), out) == Receiver.WaitResp(old(State()), tout)
    {
      var start := port.Millis();
      while port.script != []
        invariant Valid()
        invariant Poll(State(), start, tout) == Receiver.WaitResp(old(State()), tout)
        decreases |port.script|
      {
        var done;
        if port.Available() {
          done, out := ByteStep(start, tout);
        } else {
          done, out := IdleStep(start, tout);
        }
        if done {
          return;
        }
      }
      out := StillWaiting;
    }
  
    /**
     * wait(msec): rounds of wait_resp, the first with budget `msec`. A round
     * that times out ends the wait; after any other answer the wait ends
     * once `msec` ms have passed since its start, else the next round gets
     * what is left of the budget.
     */
    method Wait(msec: u32) returns (stop: WaitStop)
      requires Valid()
      modifies port`script, port`clock, rxBuff, this`rxLen, hooks`buff
      ensures Valid()
      ensures Waited(State(), stop) == IdleWait(old(State()), msec)
    {
      var start := port.Millis();
      var tout := msec;
      while true
        invariant Valid()
        invariant WaitRounds(State(), start, msec, tout) == IdleWait(old(State()), msec)
        decreases |port.script|
      {
        WaitRoundsStep(State(), start, msec, tout);
        var out := WaitResp(tout);
        if out == StillWaiting {
          return Stalled;
        }
        if out == Returned(Tout) {
          return Quiet;
        }
        var now := port.Millis();
        var elapsed := Since(now, start);
        if elapsed >= msec {
          return Elapsed;
        }
        tout := msec - elapsed;
      }
    }

    /** wait_boot(msec): wait out what is left of `msec` since the last reset, if anything. */
    method WaitBoot(msec: u32) returns (stop: WaitStop)
      requires Valid()
      modifies port`script, port`clock, rxBuff, this`rxLen, hooks`buff
      ensures Valid()
      ensures Waited(State(), stop) == Commands.WaitBoot(old(State()), rstTs, msec)
    {
      ghost var m := State();
      var now := port.Millis();
      var uptime := Since(now, rstTs);
      if uptime < msec {
        assert Commands.WaitBoot(m, rstTs, msec) == IdleWait(m, msec - uptime);
        stop := Wait(msec - uptime);
      } else {
        assert Commands.WaitBoot(m, rstTs, msec) == Waited(m, Elapsed);
        stop := Elapsed;
      }
    }

    /**
     * send(cmd, tout, continuation): `AT` unless a continuation, the text
     * of `cmd` if there is one, `\r` or Ctrl-Z, then wait_resp(tout).
     */
    method Send(cmd: Option<seq<byte>>, tout: u32, continuation: bool) returns (out: Outcome)
      requires Valid()
      modifies port`script, port`clock, port`sent, rxBuff, this`rxLen, hooks`buff
      ensures Valid()
      ensures Step(State(), out) == Commands.Send(old(State()), cmd, tout, continuation)
    {
      ghost var m := State();
      Transmit(cmd, continuation);
      assert State() == m.(sent := m.sent + Frame(cmd, continuation));
      out := WaitResp(tout);
    }

    /** The writes of send: its frame and nothing else. */
    method Transmit(cmd: Option<seq<byte>>, continuation: bool)
      modifies port`sent
      ensures port.sent == old(port.sent) + Frame(cmd, continuation)
    {
      ghost var sent := port.sent;
      if !continuation {
        port.Print(AT);
        assert CStr(AT) == AT;
      }
      assert port.sent == sent + (if continuation then [] else AT);
      if cmd.Some? {
        port.Print(cmd.value);
      }
      assert port.sent == sent + (if continuation then [] else AT) + Printed(cmd);
      port.Write(if continuation then CTRL_Z else CR);
    }

    /** send_cmd(cmd, tout): a command, 1000 ms by default. */
    method SendCmd(cmd: Option<seq<byte>>, tout: u32 := SIM_DEF_CMD_TOUT) returns (out: Outcome)
      requires Valid()
      modifies port`script, port`clock, port`sent, rxBuff, this`rxLen, hooks`buff
      ensures Valid()
      ensures Step(State(), out) == Commands.SendCmd(old(State()), cmd, tout)
    {
      out := Send(cmd, tout, false);
    }

    /** send_msg(text, tout): a continuation, 30000 ms by default. */
    method SendMsg(text: Option<seq<byte>>, tout: u32 := SIM_DEF_MSG_TOUT) returns (out: Outcome)
      requires Valid()
      modifies port`script, port`clock, port`sent, rxBuff, this`rxLen, hooks`buff
      ensures Valid()
      ensures Step(State(), out) == Commands.SendMsg(old(State()), text, tout)
    {
      out := Send(text, tout, true);
    }

    /**
     * start(baud_rate, boot_delay): wait out the boot delay, then send the
     * start-up commands.
     */
    method Start(baudRate: u32, bootDelay: u32 := SIM_DEF_BOOT_DELAY) returns (out: Outcome)
      requires Valid()
      modifies port`script, port`clock, port`sent, rxBuff, this`rxLen, hooks`buff
      ensures Valid()
      ensures Step(State(), out) == Commands.Start(old(State()), rstTs, baudRate, bootDelay)
    {
      var stop := WaitBoot(bootDelay);
      if stop == Stalled {
        return StillWaiting;
      }
      out := Configure(baudRate);
    }

    /**
     * The seven guarded sends of start: each start-up command in order,
     * the run ending at the first answer other than Ok, which it returns.
     */
    method Configure(baudRate: u32) returns (out: Outcome)
      requires Valid()
      modifies port`script, port`clock, port`sent, rxBuff, this`rxLen, hooks`buff
      ensures Valid()
      ensures Step(State(), out) == RunCommands(old(State()), StartupCommands(baudRate))
    {
      var cmds := StartupCommands(baudRate);
      var k := 0;
      while k < |cmds|
        invariant Valid() && k <= |cmds|
        invariant RunCommands(State(), cmds[k..]) == RunCommands(old(State()), cmds)
        decreases |cmds| - k
      {
        out := SendCmd(cmds[k]);
        assert cmds[k..][0] == cmds[k] && cmds[k..][1..] == cmds[k + 1..];
        if out != Returned(Ok) {
          return;
        }
        k := k + 1;
      }
      out := Returned(Ok);
    }
  }
}
