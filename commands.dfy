// The command layer of the driver as values: the bytes `send` writes, the
// idle wait with its shrinking budget, the boot delay and the start-up
// sequence, all over the receive machine of module Receiver.

module Commands {
  import opened SimTypes
  import opened Hooks
  import opened Receiver

  // ---------------------------------------------------------------- framing

  const AT: seq<byte> := [65, 84] // "AT"

  /** The byte that ends a frame: `\r` after a command, Ctrl-Z after a continuation. */
  function Terminator(continuation: bool): byte
  {
    if continuation then CTRL_Z else CR
  }

  /** What `print(cmd)` writes: nothing for a null pointer, else the C string. */
  function Printed(cmd: Option<seq<byte>>): (r: seq<byte>)
    ensures NUL !in r
    ensures cmd.None? ==> r == []
    ensures cmd.Some? ==> r <= cmd.value && (NUL !in cmd.value ==> r == cmd.value)
    ensures cmd.Some? && |r| < |cmd.value| ==> cmd.value[|r|] == NUL
  {
    match cmd
    case None => []
    case Some(c) => CStr(c)
  }

  /** The bytes `send(cmd, tout, continuation)` writes before it waits. */
  function Frame(cmd: Option<seq<byte>>, continuation: bool): (f: seq<byte>)
    ensures |f| == (if continuation then 0 else 2) + |Printed(cmd)| + 1
    ensures f[|f| - 1] == Terminator(continuation)
    ensures !continuation ==> f[..2] == AT
  {
    (if continuation then [] else AT) + Printed(cmd) + [Terminator(continuation)]
  }

  /**
   * Reading a frame back: the text between the `AT` (for a command) and the
   * terminator, if the bytes have that form and the text holds no NUL.
   */
  function Unframe(f: seq<byte>, continuation: bool): (r: Option<seq<byte>>)
    ensures r.Some? ==> NUL !in r.value
  {
    if f == [] || f[|f| - 1] != Terminator(continuation) then None
    else
      var body := f[..|f| - 1];
      if continuation then
        if NUL in body then None else Some(body)
      else if |body| >= 2 && body[..2] == AT && NUL !in body[2..] then Some(body[2..])
      else None
  }

  /** Every frame reads back as the text that was printed. */
  lemma {:induction false} UnframeFrame(cmd: Option<seq<byte>>, continuation: bool)
    ensures Unframe(Frame(cmd, continuation), continuation) == Some(Printed(cmd))
  {
    var f := Frame(cmd, continuation);
    var t := Printed(cmd);
    assert f[|f| - 1] == Terminator(continuation);
    assert f[..|f| - 1] == (if continuation then [] else AT) + t;
    if !continuation {
      var body := AT + t;
      assert body[..2] == AT && body[2..] == t;
      assert NUL !in body[2..];
      assert f[..|f| - 1] == body;
    } else {
      assert f[..|f| - 1] == t;
      assert NUL !in t;
    }
  }

  /** Whatever reads back as a text is the frame of that text. */
  lemma {:induction false} FrameUnframe(f: seq<byte>, continuation: bool)
    requires Unframe(f, continuation).Some?
    ensures Frame(Some(Unframe(f, continuation).value), continuation) == f
  {
    var t := Unframe(f, continuation).value;
    assert Printed(Some(t)) == t;
    var body := f[..|f| - 1];
    assert f == body + [f[|f| - 1]];
    if !continuation {
      assert body == body[..2] + body[2..];
    }
  }

  /** A null command and an empty one write the same bytes. */
  lemma NullCommandIsEmpty(continuation: bool)
    ensures Frame(None, continuation) == Frame(Some([]), continuation)
    ensures Frame(None, false) == [65, 84, CR] && Frame(None, true) == [CTRL_Z]
  {
  }

  /** send_cmd("+CMGF=1") writes `AT+CMGF=1\r`; send_msg("Hi") writes `Hi` and Ctrl-Z. */
  lemma FrameExamples()
    ensures Frame(Some(Ascii("+CMGF=1")), false) == Ascii("AT+CMGF=1\r")
    ensures Frame(Some(Ascii("Hi")), true) == Ascii("Hi") + [CTRL_Z]
  {
    CommandFrame("+CMGF=1", "AT+CMGF=1\r");
    assert NUL !in Ascii("Hi");
  }

  // ------------------------------------------------------ decimal formatting

  /** The ASCII digit of `d`. */
  function Digit(d: nat): (b: byte)
    requires d < 10
    ensures 48 <= b <= 57
  {
    (48 + d) as byte
  }

  predicate IsDigits(s: seq<byte>)
  {
    forall i | 0 <= i < |s| :: 48 <= s[i] <= 57
  }

  /** `String += unsigned`: the decimal digits of `n`, most significant first. */
  function Decimal(n: nat): (r: seq<byte>)
    ensures r != [] && IsDigits(r) && NUL !in r
    ensures |r| > 1 ==> r[0] != 48
    decreases n
  {
    if n < 10 then [Digit(n)] else Decimal(n / 10) + [Digit(n % 10)]
  }

  /** The number a string of decimal digits stands for. */
  function DecimalValue(s: seq<byte>): nat
    requires IsDigits(s)
  {
    if s == [] then 0 else DecimalValue(s[..|s| - 1]) * 10 + (s[|s| - 1] as int - 48)
  }

  /** Decimal is read back exactly. */
  lemma {:induction false} DecimalRoundTrip(n: nat)
    ensures DecimalValue(Decimal(n)) == n
    decreases n
  {
    if n >= 10 {
      var r := Decimal(n);
      assert r[..|r| - 1] == Decimal(n / 10);
      DecimalRoundTrip(n / 10);
    }
  }

  /** Different numbers give different digits. */
  lemma DecimalInjective(a: nat, b: nat)
    requires Decimal(a) == Decimal(b)
    ensures a == b
  {
    DecimalRoundTrip(a);
    DecimalRoundTrip(b);
  }

  lemma DecimalExamples()
    ensures Decimal(9600) == Ascii("9600")
    ensures Decimal(0) == Ascii("0")
  {
  }

  // -------------------------------------------------------------- sending

  /** send(cmd, tout, continuation): write the frame, then wait for the answer. */
  function Send(m: Machine, cmd: Option<seq<byte>>, tout: u32, continuation: bool): (s: Step)
    requires m.Valid()
    ensures s.m.Valid()
  {
    WaitResp(m.(sent := m.sent + Frame(cmd, continuation)), tout)
  }

  function SendCmd(m: Machine, cmd: Option<seq<byte>>, tout: u32 := SIM_DEF_CMD_TOUT): (s: Step)
    requires m.Valid()
    ensures s.m.Valid()
  {
    Send(m, cmd, tout, false)
  }

  function SendMsg(m: Machine, text: Option<seq<byte>>, tout: u32 := SIM_DEF_MSG_TOUT): (s: Step)
    requires m.Valid()
    ensures s.m.Valid()
  {
    Send(m, text, tout, true)
  }

  /**
   * A send writes exactly its frame and nothing after it; the wait for the
   * answer only consumes the front of the script and keeps every prefix.
   */
  lemma {:induction false} SendWritesFrame(m: Machine, cmd: Option<seq<byte>>, tout: u32, continuation: bool)
    requires m.Valid()
    ensures var s := Send(m, cmd, tout, continuation);
      && s.m.sent == m.sent + Frame(cmd, continuation)
      && |s.m.chain| == |m.chain|
      && (forall j | 0 <= j < |m.chain| :: s.m.chain[j].prefix == m.chain[j].prefix)
      && Suffix(m.script, s.m.script)
      && (s.out.Returned? ==> |s.m.script| < |m.script|)
  {
    var m1 := m.(sent := m.sent + Frame(cmd, continuation));
    PollFollows(m1, m1.clock, tout);
  }

  /** The default timeouts: 1000 ms for a command, 30000 ms for a message. */
  lemma DefaultTimeouts(m: Machine, cmd: Option<seq<byte>>)
    requires m.Valid()
    ensures SendCmd(m, cmd) == Send(m, cmd, 1000, false)
    ensures SendMsg(m, cmd) == Send(m, cmd, 30000, true)
  {
  }

  /** A command answered `OK\r\n` on a fresh line: its frame is written and it answers Ok. */
  lemma {:induction false} CommandAnsweredOk(m: Machine, cmd: Option<seq<byte>>, rest: seq<Event>)
    requires m.Valid() && m.rx.len == 0 && m.script == Bytes(OK_LINE + [LF]) + rest
    ensures var s := SendCmd(m, cmd);
      && s.out == Returned(Ok) && s.m.rx.len == 0 && s.m.script == rest
      && s.m.sent == m.sent + Frame(cmd, false) && s.m.chain == m.chain
  {
    var m1 := m.(sent := m.sent + Frame(cmd, false));
    OkReply(m1, m1.clock, SIM_DEF_CMD_TOUT, rest);
  }

  /** A command answered `ERROR\r\n` on a fresh line: its frame is written and it answers Err. */
  lemma {:induction false} CommandAnsweredError(m: Machine, cmd: Option<seq<byte>>, rest: seq<Event>)
    requires m.Valid() && m.rx.len == 0 && m.script == Bytes(ERROR_LINE + [LF]) + rest
    ensures var s := SendCmd(m, cmd);
      && s.out == Returned(Err) && s.m.rx.len == 0 && s.m.script == rest
      && s.m.sent == m.sent + Frame(cmd, false) && s.m.chain == m.chain
  {
    var m1 := m.(sent := m.sent + Frame(cmd, false));
    ErrorReply(m1, m1.clock, SIM_DEF_CMD_TOUT, rest);
  }

  /**
   * send_cmd("+CMGF=1") with echo on: it writes `AT+CMGF=1\r`, the module
   * echoes that line and then answers `OK`, and the command answers Ok.
   */
  lemma {:induction false} SetTextMode(m: Machine, text: seq<byte>, rest: seq<Event>)
    requires m.Valid() && m.rx.len == 0 && text == Ascii("+CMGF=1")
    requires m.script == Bytes(Ascii("AT+CMGF=1\r\r\nOK\r\n")) + rest
    ensures var s := SendCmd(m, Some(text));
      && s.out == Returned(Ok) && s.m.rx.len == 0 && s.m.script == rest
      && s.m.sent == m.sent + (AT + text + [CR])
  {
    assert NUL !in text;
    var m1 := m.(sent := m.sent + Frame(Some(text), false));
    EchoThenOk(m1, SIM_DEF_CMD_TOUT, rest);
    assert SendCmd(m, Some(text)) == WaitResp(m1, SIM_DEF_CMD_TOUT);
  }

  // ------------------------------------------------------------ idle wait

  /** How a wait(msec) ended. Stalled: the script ran out inside a wait_resp. */
  datatype WaitStop = Quiet | Elapsed | Stalled

  datatype Waited = Waited(m: Machine, stop: WaitStop)

  /** The budget of the next round, `msec - elapsed`: positive and at most msec. */
  function NextBudget(msec: u32, elapsed: u32): (b: u32)
    requires elapsed < msec
    ensures 0 < b <= msec && b as int + elapsed as int == msec as int
    ensures b == msec <==> elapsed == 0
  {
    msec - elapsed
  }

  /** wait(msec) */
  function IdleWait(m: Machine, msec: u32): (w: Waited)
    requires m.Valid()
    ensures w.m.Valid()
  {
    WaitRounds(m, m.clock, msec, msec)
  }

  /**
   * The loop of wait(msec) started at `start`, next round with budget
   * `tout`: a round that times out ends the wait, otherwise the wait ends
   * once `msec` have passed since `start`.
   */
  function WaitRounds(m: Machine, start: u32, msec: u32, tout: u32): (w: Waited)
    requires m.Valid()
    ensures w.m.Valid()
    decreases |m.script|
  {
    var s := WaitResp(m, tout);
    if s.out == StillWaiting then Waited(s.m, Stalled)
    else if s.out == Returned(Tout) then Waited(s.m, Quiet)
    else
      var elapsed := Since(s.m.clock, start);
      if elapsed >= msec then Waited(s.m, Elapsed)
      else
        PollFollows(m, m.clock, tout);
        WaitRounds(s.m, start, msec, NextBudget(msec, elapsed))
  }

  /**
   * One round of wait(msec): the answer of its wait_resp decides whether
   * the wait ends, and with what budget the next round starts; a round
   * that answers consumed part of the script.
   */
  lemma {:induction false} WaitRoundsStep(m: Machine, start: u32, msec: u32, tout: u32)
    requires m.Valid()
    ensures var s := WaitResp(m, tout);
      var elapsed := Since(s.m.clock, start);
      && (s.out.Returned? ==> |s.m.script| < |m.script|)
      && WaitRounds(m, start, msec, tout) ==
        if s.out == StillWaiting then Waited(s.m, Stalled)
        else if s.out == Returned(Tout) then Waited(s.m, Quiet)
        else if elapsed >= msec then Waited(s.m, Elapsed)
        else WaitRounds(s.m, start, msec, msec - elapsed)
  {
    PollFollows(m, m.clock, tout);
  }

  /**
   * wait(msec) writes nothing and keeps every prefix; it stalls only at the
   * end of the script; it ends Elapsed only once msec have passed since its
   * start, and Quiet only at an idle poll, whose clock reading it keeps.
   */
  lemma {:induction false} WaitRoundsEnds(m: Machine, start: u32, msec: u32, tout: u32)
    requires m.Valid()
    ensures var w := WaitRounds(m, start, msec, tout);
      var k := |m.script| - |w.m.script| - 1;
      && Follows(m, w.m)
      && (w.stop == Stalled ==> w.m.script == [])
      && (w.stop == Elapsed ==> Since(w.m.clock, start) >= msec)
      && (w.stop == Quiet ==> 0 <= k && m.script[k].Idle? && w.m.clock == m.script[k].now)
    decreases |m.script|
  {
    var s := WaitResp(m, tout);
    PollFollows(m, m.clock, tout);
    PollEndsOnCause(m, m.clock, tout);
    if s.out.Returned? && s.out != Returned(Tout) {
      var elapsed := Since(s.m.clock, start);
      if elapsed < msec {
        var tout' := NextBudget(msec, elapsed);
        WaitRoundsEnds(s.m, start, msec, tout');
        var w := WaitRounds(s.m, start, msec, tout');
        FollowsTrans(m, s.m, w.m);
        if w.stop == Quiet {
          ShiftIndex(m.script, s.m.script, w.m.script);
        }
      }
    }
  }

  /** Follows is transitive. */
  lemma {:induction false} FollowsTrans(a: Machine, b: Machine, c: Machine)
    requires Follows(a, b) && Follows(b, c)
    ensures Follows(a, c)
  {
    assert c.script == b.script[|b.script| - |c.script|..];
  }

  /** Positions counted from the back of a suffix are positions of the whole. */
  lemma {:induction false} ShiftIndex(a: seq<Event>, b: seq<Event>, c: seq<Event>)
    requires Suffix(a, b) && Suffix(b, c) && |c| < |b|
    ensures b[|b| - |c| - 1] == a[|a| - |c| - 1]
  {
  }

  /**
   * A notification arriving during wait(msec) goes to the hooks, and the
   * first idle poll past the budget ends the wait Quiet.
   */
  lemma {:induction false} WaitCapturesNotification(m: Machine, msec: u32, line: seq<byte>, now: u32, rest: seq<Event>)
    requires m.Valid() && m.rx.len == 0
    requires LF !in line && |line| < SIM_RX_BUFF_SZ
    requires line + [CR] != OK_LINE && line + [CR] != ERROR_LINE
    requires m.script == Bytes(line + [CR, LF]) + ([Idle(now)] + rest)
    requires Expired(now, m.clock, msec)
    ensures var w := IdleWait(m, msec);
      && w.stop == Quiet && w.m.script == rest && w.m.clock == now
      && w.m.chain == Dispatch(m.chain, line) && w.m.sent == m.sent
  {
    LineReply(m, m.clock, msec, line, [Idle(now)] + rest);
    var m1 := m.(rx := Rx(Overwrite(m.rx.buf, line + [NUL]), 0), chain := Dispatch(m.chain, line),
                 script := [Idle(now)] + rest);
    Deadline(m1, m.clock, msec, now, rest);
  }

  // ------------------------------------------------------------ boot delay

  /** The budget wait_boot(msec) waits for: what is left of msec since the reset, if anything. */
  function BootBudget(now: u32, rstTs: u32, msec: u32): (b: Option<u32>)
    ensures b.Some? <==> Since(now, rstTs) < msec
    ensures b.Some? ==> 0 < b.value <= msec && b.value as int + Since(now, rstTs) as int == msec as int
  {
    var uptime := Since(now, rstTs);
    if uptime < msec then Some(NextBudget(msec, uptime)) else None
  }

  /** wait_boot(msec) */
  function WaitBoot(m: Machine, rstTs: u32, msec: u32): (w: Waited)
    requires m.Valid()
    ensures w.m.Valid()
  {
    match BootBudget(m.clock, rstTs, msec)
    case None => Waited(m, Elapsed)
    case Some(b) => IdleWait(m, b)
  }

  /**
   * wait_boot(msec) changes nothing once msec have passed since the reset;
   * otherwise it waits, and a wait that ends Elapsed ends with the time
   * since the reset (as two wrapped differences added without wrap) at
   * least msec.
   */
  lemma {:induction false} WaitBootEnough(m: Machine, rstTs: u32, msec: u32)
    requires m.Valid()
    ensures var w := WaitBoot(m, rstTs, msec);
      && (Since(m.clock, rstTs) >= msec ==> w == Waited(m, Elapsed))
      && (w.stop == Elapsed ==> Since(m.clock, rstTs) as int + Since(w.m.clock, m.clock) as int >= msec as int)
      && Follows(m, w.m)
  {
    var b := BootBudget(m.clock, rstTs, msec);
    if b.Some? {
      WaitRoundsEnds(m, m.clock, b.value, b.value);
    } else {
      assert Follows(m, m) by { assert m.script[|m.script| - |m.script|..] == m.script; }
    }
  }

  /**
   * The time from `start` to `now` measured through the reading `mid` in
   * between: the two wrapped differences added without wrap.
   */
  function Via(start: u32, mid: u32, now: u32): (t: int)
    ensures t < 0x1_0000_0000 ==> t == Since(now, start) as int
  {
    SinceAdd(start, mid, now);
    Since(mid, start) as int + Since(now, mid) as int
  }

  /** Wrapped differences add up as long as their sum does not wrap. */
  lemma SinceAdd(a: u32, b: u32, c: u32)
    ensures Since(b, a) as int + Since(c, b) as int < 0x1_0000_0000 ==>
      Since(c, a) as int == Since(b, a) as int + Since(c, b) as int
  {
    SinceIsModular(b, a);
    SinceIsModular(c, b);
    SinceIsModular(c, a);
  }

  /**
   * The budget invariant of wait(msec): when a round starts with budget
   * `tout` and `tout` plus the time since `start` is `msec`, a wait that
   * ends Quiet has seen a clock reading `r` (the proof picks the one its
   * last round started at) no later than `msec` after `start`, and ends more than
   * `msec` after `start` counted through `r`. So the wait never ends
   * early: unless the clock wrapped past `start`, more than `msec` ms
   * have passed since `start`.
   */
  lemma {:induction false} WaitRoundsQuietLate(m: Machine, start: u32, msec: u32, tout: u32) returns (r: u32)
    requires m.Valid() && tout as int + Since(m.clock, start) as int == msec as int
    ensures var w := WaitRounds(m, start, msec, tout);
      w.stop == Quiet ==>
        && Observed(m, w.m.script, r)
        && Since(r, start) <= msec
        && Via(start, r, w.m.clock) > msec as int
        && (Via(start, r, w.m.clock) < 0x1_0000_0000 ==> Since(w.m.clock, start) > msec)
    decreases |m.script|
  {
    var s := WaitResp(m, tout);
    PollFollows(m, m.clock, tout);
    PollEndsOnCause(m, m.clock, tout);
    r := m.clock;
    if s.out.Returned? && s.out != Returned(Tout) {
      var elapsed := Since(s.m.clock, start);
      if elapsed < msec {
        var tout' := NextBudget(msec, elapsed);
        r := WaitRoundsQuietLate(s.m, start, msec, tout');
        var w := WaitRounds(s.m, start, msec, tout');
        if w.stop == Quiet {
          PollClock(m, m.clock, tout);
          ObservedTrans(m, s.m, w.m.script, r);
        }
      }
    }
  }

  /**
   * Why WaitRoundsQuietLate counts through `r`: with wait(10) started at
   * clock 0, an idle poll at 5, an `OK` reply and then a clock reading of
   * 2 (the clock went all the way round), the second round times out and
   * the wait ends Quiet with the wrapped time since its start only 2.
   */
  lemma QuietAfterWrap(m: Machine)
    requires m.Valid() && m.rx.len == 0 && m.clock == 0
    requires m.script == [Idle(5)] + (Bytes(OK_LINE + [LF]) + [Idle(2)])
    ensures var w := IdleWait(m, 10);
      w.stop == Quiet && Since(w.m.clock, 0) == 2
  {
    var m1 := m.(script := Bytes(OK_LINE + [LF]) + [Idle(2)], clock := 5);
    assert Poll(m, 0, 10) == Poll(m1, 0, 10);
    OkReply(m1, 0, 10, [Idle(2)]);
    var m2 := m1.(rx := Rx(Overwrite(m.rx.buf, OK_LINE), 0), script := [Idle(2)]);
    Deadline(m2, 5, 5, 2, []);
    WaitRoundsStep(m, 0, 10, 10);
    WaitRoundsStep(m2, 0, 10, 5);
  }

  /**
   * wait_boot(msec) that ends Quiet ends more than msec after the reset,
   * counted as the uptime at the call plus the time of the wait through
   * a clock reading `r` the wait saw.
   */
  lemma {:induction false} WaitBootQuietLate(m: Machine, rstTs: u32, msec: u32) returns (r: u32)
    requires m.Valid()
    ensures var w := WaitBoot(m, rstTs, msec);
      w.stop == Quiet ==>
        && Observed(m, w.m.script, r)
        && Since(m.clock, rstTs) as int + Via(m.clock, r, w.m.clock) > msec as int
  {
    r := m.clock;
    var b := BootBudget(m.clock, rstTs, msec);
    if b.Some? {
      assert Since(m.clock, m.clock) == 0;
      r := WaitRoundsQuietLate(m, m.clock, b.value, b.value);
    }
  }

  /**
   * Uptime across the wrap of the clock: reset at 0xFFFFF000, clock now
   * 0x1710, so 10000 ms have passed and wait_boot(30000) waits 20000 ms.
   */
  lemma BootBudgetAcrossWrap()
    ensures Since(0x1710, 0xFFFF_F000) == 10000
    ensures BootBudget(0x1710, 0xFFFF_F000, 30000) == Some(20000)
    ensures BootBudget(0x9000, 0x1000, 30000) == None
  {
  }

  // ------------------------------------------------------------- start-up

  // The texts of the start-up commands after the first, bare `AT`
  const SET_RATE_PREFIX: seq<byte> := Ascii("+IPR=") // followed by the baud rate
  const SET_TEXT_MODE: seq<byte> := Ascii("+CMGF=1")
  const ROUTE_SMS: seq<byte> := Ascii("+CNMI=1,2,0,0,0")
  const SHORT_ERRORS: seq<byte> := Ascii("+CMEE=0")
  const ECHO_OFF: seq<byte> := Ascii("E0")
  const SAVE_CONFIG: seq<byte> := Ascii("&W")

  /** The seven commands of start, in order. */
  function StartupCommands(baudRate: u32): (cmds: seq<Option<seq<byte>>>)
    ensures |cmds| == 7 && cmds[0] == None
    ensures forall i | 1 <= i < 7 :: cmds[i].Some? && cmds[i].value != [] && NUL !in cmds[i].value
    ensures Frames(cmds[..1]) == [65, 84, CR]
  {
    assert NUL !in SET_RATE_PREFIX + Decimal(baudRate as nat);
    [ None,
      Some(SET_RATE_PREFIX + Decimal(baudRate as nat)),
      Some(SET_TEXT_MODE),
      Some(ROUTE_SMS),
      Some(SHORT_ERRORS),
      Some(ECHO_OFF),
      Some(SAVE_CONFIG) ]
  }

  /** The frames of a list of commands, back to back. */
  function Frames(cmds: seq<Option<seq<byte>>>): seq<byte>
  {
    if cmds == [] then [] else Frame(cmds[0], false) + Frames(cmds[1..])
  }

  /** The commands sent one after the other, stopping at the first answer other than Ok. */
  function RunCommands(m: Machine, cmds: seq<Option<seq<byte>>>): (s: Step)
    requires m.Valid()
    ensures s.m.Valid()
    decreases |cmds|
  {
    if cmds == [] then Step(m, Returned(Ok))
    else
      var s := SendCmd(m, cmds[0]);
      if s.out != Returned(Ok) then s else RunCommands(s.m, cmds[1..])
  }

  /** start(baud_rate, boot_delay) */
  function Start(m: Machine, rstTs: u32, baudRate: u32, bootDelay: u32 := SIM_DEF_BOOT_DELAY): (s: Step)
    requires m.Valid()
    ensures s.m.Valid()
  {
    var w := WaitBoot(m, rstTs, bootDelay);
    if w.stop == Stalled then Step(w.m, StillWaiting) else RunCommands(w.m, StartupCommands(baudRate))
  }

  lemma {:induction false} FramesAppend(a: seq<Option<seq<byte>>>, b: seq<Option<seq<byte>>>)
    ensures Frames(a + b) == Frames(a) + Frames(b)
    decreases |a|
  {
    if a != [] {
      assert (a + b)[0] == a[0];
      assert (a + b)[1..] == a[1..] + b;
      FramesAppend(a[1..], b);
      calc {
        Frames(a + b);
        Frame(a[0], false) + Frames(a[1..] + b);
        Frame(a[0], false) + (Frames(a[1..]) + Frames(b));
        (Frame(a[0], false) + Frames(a[1..])) + Frames(b);
      }
    } else {
      assert a + b == b;
    }
  }

  /**
   * The commands go out in order, each whole: what is written is the frames
   * of the first `k` commands and no later one. The run stops early only on
   * an answer other than Ok, and answers Ok only when all were sent.
   */
  lemma {:induction false} RunCommandsSends(m: Machine, cmds: seq<Option<seq<byte>>>) returns (k: nat)
    requires m.Valid()
    ensures var s := RunCommands(m, cmds);
      && k <= |cmds| && (cmds != [] ==> 0 < k)
      && s.m.sent == m.sent + Frames(cmds[..k])
      && (s.out == Returned(Ok) ==> k == |cmds|)
      && (k < |cmds| ==> s.out != Returned(Ok))
    decreases |cmds|
  {
    if cmds == [] {
      k := 0;
    } else {
      var s := SendCmd(m, cmds[0]);
      SendWritesFrame(m, cmds[0], SIM_DEF_CMD_TOUT, false);
      if s.out != Returned(Ok) {
        k := 1;
        FramesCons(cmds, 0);
      } else {
        var k' := RunCommandsSends(s.m, cmds[1..]);
        k := k' + 1;
        FramesCons(cmds, k');
        var r := RunCommands(s.m, cmds[1..]);
        assert RunCommands(m, cmds) == r;
        assert r.m.sent == m.sent + (Frame(cmds[0], false) + Frames(cmds[1..][..k']));
      }
    }
  }

  /**
   * The reference the run is measured against: every command sent, one
   * after the other, whatever it was answered. Entry `i` is the state and
   * answer right after command `i`.
   */
  function SendAll(m: Machine, cmds: seq<Option<seq<byte>>>): (r: seq<Step>)
    requires m.Valid()
    ensures |r| == |cmds|
    ensures forall i | 0 <= i < |r| :: r[i].m.Valid()
    decreases |cmds|
  {
    if cmds == [] then []
    else
      var s := SendCmd(m, cmds[0]);
      [s] + SendAll(s.m, cmds[1..])
  }

  /**
   * Fail-fast: when commands `0..i-1` were all answered Ok and command `i`
   * was not, the run ends exactly where sending command `i` left the
   * driver, with its answer; no later command is sent.
   */
  lemma {:induction false} RunCommandsFailFast(m: Machine, cmds: seq<Option<seq<byte>>>, i: nat)
    requires m.Valid() && i < |cmds|
    requires forall j | 0 <= j < i :: SendAll(m, cmds)[j].out == Returned(Ok)
    requires SendAll(m, cmds)[i].out != Returned(Ok)
    ensures RunCommands(m, cmds) == SendAll(m, cmds)[i]
    decreases i
  {
    var s := SendCmd(m, cmds[0]);
    assert SendAll(m, cmds)[0] == s;
    if i > 0 {
      forall j | 0 <= j < i - 1 ensures SendAll(s.m, cmds[1..])[j].out == Returned(Ok) {
        assert SendAll(s.m, cmds[1..])[j] == SendAll(m, cmds)[j + 1];
      }
      assert SendAll(s.m, cmds[1..])[i - 1] == SendAll(m, cmds)[i];
      RunCommandsFailFast(s.m, cmds[1..], i - 1);
    }
  }

  /** When every command is answered Ok, the run answers Ok where the last send left the driver. */
  lemma {:induction false} RunCommandsAllOk(m: Machine, cmds: seq<Option<seq<byte>>>)
    requires m.Valid() && cmds != []
    requires forall j | 0 <= j < |cmds| :: SendAll(m, cmds)[j].out == Returned(Ok)
    ensures RunCommands(m, cmds) == Step(SendAll(m, cmds)[|cmds| - 1].m, Returned(Ok))
    decreases |cmds|
  {
    var s := SendCmd(m, cmds[0]);
    assert SendAll(m, cmds)[0] == s;
    if |cmds| > 1 {
      forall j | 0 <= j < |cmds| - 1 ensures SendAll(s.m, cmds[1..])[j].out == Returned(Ok) {
        assert SendAll(s.m, cmds[1..])[j] == SendAll(m, cmds)[j + 1];
      }
      RunCommandsAllOk(s.m, cmds[1..]);
      assert SendAll(s.m, cmds[1..])[|cmds| - 2] == SendAll(m, cmds)[|cmds| - 1];
    }
  }

  /** The run answers Ok exactly when every command, sent one after the other, was answered Ok. */
  lemma {:induction false} RunCommandsOkIff(m: Machine, cmds: seq<Option<seq<byte>>>)
    requires m.Valid()
    ensures RunCommands(m, cmds).out == Returned(Ok) <==>
      forall j | 0 <= j < |cmds| :: SendAll(m, cmds)[j].out == Returned(Ok)
  {
    var all := SendAll(m, cmds);
    if exists j | 0 <= j < |cmds| :: all[j].out != Returned(Ok) {
      var i := FirstNotOk(all);
      RunCommandsFailFast(m, cmds, i);
    } else if cmds != [] {
      RunCommandsAllOk(m, cmds);
    }
  }

  /** The position of the first answer other than Ok. */
  lemma {:induction false} FirstNotOk(all: seq<Step>) returns (i: nat)
    requires exists j | 0 <= j < |all| :: all[j].out != Returned(Ok)
    ensures i < |all| && all[i].out != Returned(Ok)
    ensures forall j | 0 <= j < i :: all[j].out == Returned(Ok)
  {
    i := 0;
    while all[i].out == Returned(Ok)
      invariant i < |all|
      invariant forall j | 0 <= j < i :: all[j].out == Returned(Ok)
      invariant exists j | i <= j < |all| :: all[j].out != Returned(Ok)
      decreases |all| - i
    {
      i := i + 1;
    }
  }

  /** The frames of the first `k + 1` commands: the first frame, then those of the next `k`. */
  lemma {:induction false} FramesCons(cmds: seq<Option<seq<byte>>>, k: nat)
    requires k < |cmds|
    ensures Frames(cmds[..k + 1]) == Frame(cmds[0], false) + Frames(cmds[1..][..k])
  {
    var p := cmds[..k + 1];
    assert p[0] == cmds[0] && p[1..] == cmds[1..][..k];
  }

  /** The frame of a command given as an ASCII literal without NUL. */
  lemma {:induction false} CommandFrame(text: string, full: string)
    requires forall i | 0 <= i < |text| :: 0 < text[i] as int < 256
    requires full == "AT" + text + "\r"
    ensures Frame(Some(Ascii(text)), false) == Ascii(full)
  {
    var t := Ascii(text);
    assert NUL !in t;
    var r := Ascii(full);
    assert |r| == |AT + t + [CR]|;
    forall i | 0 <= i < |r| ensures r[i] == (AT + t + [CR])[i] {
      if 2 <= i < |r| - 1 { assert ("AT" + text + "\r")[i] == text[i - 2]; }
    }
  }

  /** Past the boot delay start waits no longer and goes straight to the commands. */
  lemma {:induction false} StartAfterBoot(m: Machine, rstTs: u32, baudRate: u32, bootDelay: u32)
    requires m.Valid() && Since(m.clock, rstTs) >= bootDelay
    ensures Start(m, rstTs, baudRate, bootDelay) == RunCommands(m, StartupCommands(baudRate))
  {
    assert WaitBoot(m, rstTs, bootDelay) == Waited(m, Elapsed);
  }

  /**
   * start fails fast: once the boot wait is over, start answers the first
   * start-up command whose answer is not Ok, and ends where sending that
   * command left the driver; it answers Ok exactly when all seven did.
   */
  lemma {:induction false} StartFailFast(m: Machine, rstTs: u32, baudRate: u32, bootDelay: u32, i: nat)
    requires m.Valid() && WaitBoot(m, rstTs, bootDelay).stop != Stalled && i < 7
    requires var all := SendAll(WaitBoot(m, rstTs, bootDelay).m, StartupCommands(baudRate));
      && (forall j | 0 <= j < i :: all[j].out == Returned(Ok))
      && all[i].out != Returned(Ok)
    ensures Start(m, rstTs, baudRate, bootDelay) ==
      SendAll(WaitBoot(m, rstTs, bootDelay).m, StartupCommands(baudRate))[i]
  {
    RunCommandsFailFast(WaitBoot(m, rstTs, bootDelay).m, StartupCommands(baudRate), i);
  }

  lemma {:induction false} StartOkIff(m: Machine, rstTs: u32, baudRate: u32, bootDelay: u32)
    requires m.Valid() && WaitBoot(m, rstTs, bootDelay).stop != Stalled
    ensures Start(m, rstTs, baudRate, bootDelay).out == Returned(Ok) <==>
      var all := SendAll(WaitBoot(m, rstTs, bootDelay).m, StartupCommands(baudRate));
      forall j | 0 <= j < 7 :: all[j].out == Returned(Ok)
  {
    RunCommandsOkIff(WaitBoot(m, rstTs, bootDelay).m, StartupCommands(baudRate));
  }

  /**
   * Start-up past the boot delay, answers OK, OK, ERROR: start answers Err
   * after writing `AT\r`, `AT+IPR=...\r` and `AT+CMGF=1\r`, and sends nothing more.
   */
  lemma {:induction false} StartStopsAtError(m: Machine, rstTs: u32, baudRate: u32, rest: seq<Event>)
    requires m.Valid() && m.rx.len == 0
    requires Since(m.clock, rstTs) >= SIM_DEF_BOOT_DELAY
    requires m.script == Bytes(OK_LINE + [LF]) + (Bytes(OK_LINE + [LF]) + (Bytes(ERROR_LINE + [LF]) + rest))
    ensures var s := Start(m, rstTs, baudRate);
      && s.out == Returned(Err) && s.m.script == rest
      && s.m.sent == m.sent + Frames(StartupCommands(baudRate)[..3])
  {
    StartAfterBoot(m, rstTs, baudRate, SIM_DEF_BOOT_DELAY);
    RunStopsAtError(m, StartupCommands(baudRate), rest);
  }

  /** Commands answered OK, OK, ERROR: the run answers Err after three frames. */
  lemma {:induction false} RunStopsAtError(m: Machine, cmds: seq<Option<seq<byte>>>, rest: seq<Event>)
    requires m.Valid() && m.rx.len == 0 && |cmds| >= 3
    requires m.script == Bytes(OK_LINE + [LF]) + (Bytes(OK_LINE + [LF]) + (Bytes(ERROR_LINE + [LF]) + rest))
    ensures var s := RunCommands(m, cmds);
      && s.out == Returned(Err) && s.m.script == rest
      && s.m.sent == m.sent + Frames(cmds[..3])
  {
    CommandAnsweredOk(m, cmds[0], Bytes(OK_LINE + [LF]) + (Bytes(ERROR_LINE + [LF]) + rest));
    var s1 := SendCmd(m, cmds[0]);
    CommandAnsweredOk(s1.m, cmds[1], Bytes(ERROR_LINE + [LF]) + rest);
    var s2 := SendCmd(s1.m, cmds[1]);
    CommandAnsweredError(s2.m, cmds[2], rest);
    RunThree(m, cmds);
    FramesOfThree(cmds[..3]);
  }

  /** Frames and results of a run whose first two commands answer Ok and whose third does not. */
  lemma {:induction false} RunThree(m: Machine, cmds: seq<Option<seq<byte>>>)
    requires m.Valid() && |cmds| >= 3
    requires var s1 := SendCmd(m, cmds[0]);
      && s1.out == Returned(Ok) && SendCmd(s1.m, cmds[1]).out == Returned(Ok)
      && SendCmd(SendCmd(s1.m, cmds[1]).m, cmds[2]).out != Returned(Ok)
    ensures var s3 := SendCmd(SendCmd(SendCmd(m, cmds[0]).m, cmds[1]).m, cmds[2]);
      RunCommands(m, cmds) == s3
  {
    var s1 := SendCmd(m, cmds[0]);
    var s2 := SendCmd(s1.m, cmds[1]);
    assert RunCommands(m, cmds) == RunCommands(s1.m, cmds[1..]);
    assert cmds[1..][0] == cmds[1] && cmds[1..][1..] == cmds[2..];
    assert RunCommands(s1.m, cmds[1..]) == RunCommands(s2.m, cmds[2..]);
    assert cmds[2..][0] == cmds[2];
  }

  lemma {:induction false} FramesOfThree(c: seq<Option<seq<byte>>>)
    requires |c| == 3
    ensures Frames(c) == Frame(c[0], false) + Frame(c[1], false) + Frame(c[2], false)
  {
    var f0, f1, f2 := Frame(c[0], false), Frame(c[1], false), Frame(c[2], false);
    assert c[1..][0] == c[1] && c[1..][1..][0] == c[2] && c[1..][1..][1..] == [];
    assert Frames(c[1..][1..]) == f2 + Frames([]);
    assert Frames(c[1..]) == f1 + Frames(c[1..][1..]);
    assert Frames(c) == f0 + Frames(c[1..]);
    assert f0 + (f1 + (f2 + [])) == f0 + f1 + f2;
  }
}
