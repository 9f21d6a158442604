// The receive side of the driver as values: the line accumulator (one byte
// at a time) and the poll loop of SimpleSIM::wait_resp over a scripted
// environment. The imperative driver in modem.dfy is proved to compute
// exactly these functions.

module Receiver {
  import opened SimTypes
  import opened Hooks

  /** `m_rx_buff` (all of its storage) and `m_rx_len`. */
  datatype Rx = Rx(buf: seq<byte>, len: nat) {
    predicate Valid()
    {
      |buf| == SIM_RX_STORAGE && len <= SIM_RX_BUFF_SZ
    }

    /** The bytes of the line being accumulated. */
    function Content(): seq<byte>
      requires Valid()
    {
      buf[..len]
    }
  }

  // The closed lines that end a wait, and the prompt marker
  const OK_LINE: seq<byte> := [79, 75, CR]               // "OK\r"
  const ERROR_LINE: seq<byte> := [69, 82, 82, 79, 82, CR] // "ERROR\r"
  const PROMPT_MARK: seq<byte> := [GT, SPACE]             // "> "

  /** What one received byte does to the line. */
  datatype Feed = Pass | Terminal(result: SimResult) | Line(content: seq<byte>)

  datatype Fed = Fed(rx: Rx, ev: Feed)

  /** A `\n` closes the line only right after a buffered `\r`. */
  predicate Closes(rx: Rx, c: byte)
    requires rx.Valid()
    ensures Closes(rx, c) <==> c == LF && rx.Content() != [] && rx.Content()[|rx.Content()| - 1] == CR
  {
    c == LF && rx.len > 0 && rx.buf[rx.len - 1] == CR
  }

  /** The byte branch of the poll loop of wait_resp. */
  function FeedByte(rx: Rx, c: byte): (r: Fed)
    requires rx.Valid()
    ensures r.rx.Valid()
    ensures r.ev.Pass? <==> !Closes(rx, c)
    // a closed line always empties the buffer
    ensures !r.ev.Pass? ==> r.rx.len == 0
    ensures r.ev == Terminal(Ok) <==> Closes(rx, c) && rx.Content() == OK_LINE
    ensures r.ev == Terminal(Err) <==> Closes(rx, c) && rx.Content() == ERROR_LINE
    ensures r.ev.Terminal? ==> r.ev.result in {Ok, Err}
    // any other closed line is handed on without its `\r`
    ensures r.ev.Line? <==> Closes(rx, c) && rx.Content() != OK_LINE && rx.Content() != ERROR_LINE
    ensures r.ev.Line? ==> rx.Content() == r.ev.content + [CR]
    // any other byte is stored at the current end, and counted only while there is room
    ensures r.ev.Pass? ==> r.rx.buf == rx.buf[rx.len := c]
    ensures r.ev.Pass? && rx.len < SIM_RX_BUFF_SZ ==> r.rx.Content() == rx.Content() + [c]
    ensures r.ev.Pass? && rx.len == SIM_RX_BUFF_SZ ==>
      r.rx.len == rx.len && r.rx.buf[..SIM_RX_BUFF_SZ] == rx.buf[..SIM_RX_BUFF_SZ]
  {
    if Closes(rx, c) then
      if rx.len == 3 && rx.buf[0] == 79 && rx.buf[1] == 75 then
        Fed(rx.(len := 0), Terminal(Ok))
      else if rx.len == 6 && rx.buf[0] == 69 && rx.buf[1] == 82 && rx.buf[2] == 82
              && rx.buf[3] == 79 && rx.buf[4] == 82 then
        Fed(rx.(len := 0), Terminal(Err))
      else
        assert rx.Content() == rx.buf[..rx.len - 1] + [CR];
        Fed(Rx(rx.buf[rx.len - 1 := NUL], 0), Line(rx.buf[..rx.len - 1]))
    else
      Fed(Rx(rx.buf[rx.len := c], if rx.len < SIM_RX_BUFF_SZ then rx.len + 1 else rx.len), Pass)
  }

  /** The open line is exactly the prompt marker. */
  predicate IsPrompt(rx: Rx)
    requires rx.Valid()
    ensures IsPrompt(rx) <==> rx.Content() == PROMPT_MARK
  {
    assert rx.len == 2 ==> rx.Content() == [rx.buf[0], rx.buf[1]];
    rx.len == 2 && rx.buf[0] == GT && rx.buf[1] == SPACE
  }

  /**
   * Everything the driver's waits read or change: the line, the hook
   * chain (newest first), the rest of the scripted environment, the last
   * clock reading and the bytes written so far.
   */
  datatype Machine = Machine(rx: Rx, chain: seq<HookState>, script: seq<Event>, clock: u32, sent: seq<byte>)
  {
    predicate Valid()
    {
      rx.Valid()
    }
  }

  datatype Step = Step(m: Machine, out: Outcome)

  /** `b` is what is left of `a` once some events were taken from its front. */
  predicate Suffix(a: seq<Event>, b: seq<Event>)
  {
    |b| <= |a| && b == a[|a| - |b|..]
  }

  /**
   * A wait changes only the line, the captures, the script (by consuming
   * its front) and the clock: it writes nothing and keeps every prefix.
   */
  predicate Follows(m: Machine, m': Machine)
  {
    && m'.sent == m.sent
    && |m'.chain| == |m.chain|
    && (forall j | 0 <= j < |m.chain| :: m'.chain[j].prefix == m.chain[j].prefix)
    && Suffix(m.script, m'.script)
  }

  /** wait_resp(tout): the clock reading at entry is the start of the wait. */
  function WaitResp(m: Machine, tout: u32): (s: Step)
    requires m.Valid()
    ensures s.m.Valid()
  {
    Poll(m, m.clock, tout)
  }

  /**
   * The `for(;;)` poll loop of wait_resp, started at `start`: a byte when
   * one is available, an idle poll of the clock otherwise.
   */
  function Poll(m: Machine, start: u32, tout: u32): (s: Step)
    requires m.Valid()
    ensures s.m.Valid()
    decreases |m.script|, 1
  {
    if m.script == [] then Step(m, StillWaiting)
    else
      match m.script[0]
      case Recv(c) => OnByte(m.(script := m.script[1..]), c, start, tout)
      case Idle(now) => OnIdle(m.(script := m.script[1..], clock := now), start, tout)
  }

  /** One received byte: a terminal line ends the wait, any other closed line goes to the hooks. */
  function OnByte(m: Machine, c: byte, start: u32, tout: u32): (s: Step)
    requires m.Valid()
    ensures s.m.Valid()
    decreases |m.script|, 2
  {
    var fed := FeedByte(m.rx, c);
    match fed.ev
    case Terminal(res) => Step(m.(rx := fed.rx), Returned(res))
    case Line(line) => Poll(m.(rx := fed.rx, chain := Dispatch(m.chain, line)), start, tout)
    case Pass => Poll(m.(rx := fed.rx), start, tout)
  }

  /** No byte available and the clock reads `m.clock`: past the budget the wait ends. */
  function OnIdle(m: Machine, start: u32, tout: u32): (s: Step)
    requires m.Valid()
    ensures s.m.Valid()
    decreases |m.script|, 2
  {
    if Expired(m.clock, start, tout) then
      if IsPrompt(m.rx) then Step(m.(rx := m.rx.(len := 0)), Returned(Prompt))
      else Step(m, Returned(Tout))
    else Poll(m, start, tout)
  }

  lemma {:induction false} SuffixStep(a: seq<Event>, b: seq<Event>)
    requires a != [] && Suffix(a[1..], b)
    ensures Suffix(a, b) && |b| < |a|
  {
    assert a[1..][|a| - 1 - |b|..] == a[|a| - |b|..];
  }

  /**
   * A wait only consumes the front of the script, writes nothing and keeps
   * every hook's prefix; it returns a result only after consuming an event,
   * and it is still waiting only once the script is used up.
   */
  lemma {:induction false} PollFollows(m: Machine, start: u32, tout: u32)
    requires m.Valid()
    ensures var s := Poll(m, start, tout);
      && Follows(m, s.m)
      && (s.out.Returned? ==> |s.m.script| < |m.script|)
      && (s.out == StillWaiting ==> s.m.script == [])
    decreases |m.script|, 1
  {
    if m.script != [] {
      var rest := m.script[1..];
      match m.script[0]
      case Recv(c) =>
        OnByteFollows(m.(script := rest), c, start, tout);
        SuffixStep(m.script, OnByte(m.(script := rest), c, start, tout).m.script);
      case Idle(now) =>
        OnIdleFollows(m.(script := rest, clock := now), start, tout);
        SuffixStep(m.script, OnIdle(m.(script := rest, clock := now), start, tout).m.script);
    }
  }

  lemma {:induction false} OnByteFollows(m: Machine, c: byte, start: u32, tout: u32)
    requires m.Valid()
    ensures var s := OnByte(m, c, start, tout);
      && Follows(m, s.m)
      && (s.out == StillWaiting ==> s.m.script == [])
    decreases |m.script|, 2
  {
    var fed := FeedByte(m.rx, c);
    match fed.ev
    case Terminal(res) =>
    case Line(line) => PollFollows(m.(rx := fed.rx, chain := Dispatch(m.chain, line)), start, tout);
    case Pass => PollFollows(m.(rx := fed.rx), start, tout);
  }

  lemma {:induction false} OnIdleFollows(m: Machine, start: u32, tout: u32)
    requires m.Valid()
    ensures var s := OnIdle(m, start, tout);
      && Follows(m, s.m)
      && (s.out == StillWaiting ==> s.m.script == [])
    decreases |m.script|, 2
  {
    if !Expired(m.clock, start, tout) {
      PollFollows(m, start, tout);
    }
  }

  /**
   * `r` is a clock reading the driver has seen on its way from `m` to the
   * point where `rest` is what is left of the script: the reading it
   * started with, or the reading of an idle poll it consumed.
   */
  predicate Observed(m: Machine, rest: seq<Event>, r: u32)
  {
    |rest| <= |m.script| && (r == m.clock || Idle(r) in m.script[..|m.script| - |rest|])
  }

  /** A reading seen from a later point was seen from an earlier one. */
  lemma {:induction false} ObservedTrans(m: Machine, m1: Machine, rest: seq<Event>, r: u32)
    requires Suffix(m.script, m1.script) && Observed(m, m1.script, m1.clock)
    requires Observed(m1, rest, r)
    ensures Observed(m, rest, r)
  {
    var d := |m.script| - |m1.script|;
    if r != m1.clock {
      var j :| 0 <= j < |m1.script| - |rest| && m1.script[j] == Idle(r);
      assert m.script[..|m.script| - |rest|][d + j] == Idle(r);
    } else if r != m.clock {
      var j :| 0 <= j < d && m.script[j] == Idle(r);
      assert m.script[..|m.script| - |rest|][j] == Idle(r);
    }
  }

  /** The clock reading a wait ends with is one it has seen. */
  lemma {:induction false} PollClock(m: Machine, start: u32, tout: u32)
    requires m.Valid()
    ensures var s := Poll(m, start, tout);
      Observed(m, s.m.script, s.m.clock)
    decreases |m.script|, 1
  {
    if m.script != [] {
      var rest := m.script[1..];
      match m.script[0]
      case Recv(c) =>
        var m1 := m.(script := rest);
        OnByteClock(m1, c, start, tout);
        OnByteFollows(m1, c, start, tout);
        ObservedTrans(m, m1, OnByte(m1, c, start, tout).m.script, OnByte(m1, c, start, tout).m.clock);
      case Idle(now) =>
        var m1 := m.(script := rest, clock := now);
        OnIdleClock(m1, start, tout);
        OnIdleFollows(m1, start, tout);
        assert m.script[..|m.script| - |rest|][0] == Idle(now);
        ObservedTrans(m, m1, OnIdle(m1, start, tout).m.script, OnIdle(m1, start, tout).m.clock);
    }
  }

  lemma {:induction false} OnByteClock(m: Machine, c: byte, start: u32, tout: u32)
    requires m.Valid()
    ensures var s := OnByte(m, c, start, tout);
      Observed(m, s.m.script, s.m.clock)
    decreases |m.script|, 2
  {
    var fed := FeedByte(m.rx, c);
    match fed.ev
    case Terminal(res) =>
    case Line(line) => PollClock(m.(rx := fed.rx, chain := Dispatch(m.chain, line)), start, tout);
    case Pass => PollClock(m.(rx := fed.rx), start, tout);
  }

  lemma {:induction false} OnIdleClock(m: Machine, start: u32, tout: u32)
    requires m.Valid()
    ensures var s := OnIdle(m, start, tout);
      Observed(m, s.m.script, s.m.clock)
    decreases |m.script|, 2
  {
    if !Expired(m.clock, start, tout) {
      PollClock(m, start, tout);
    }
  }

  /** `s` written over the front of `buf`. */
  function Overwrite(buf: seq<byte>, s: seq<byte>): (r: seq<byte>)
    requires |s| <= |buf|
    ensures |r| == |buf| && r[..|s|] == s && r[|s|..] == buf[|s|..]
  {
    s + buf[|s|..]
  }

  /** A byte that does not close the line is stored and the wait goes on. */
  lemma {:induction false} PassByte(m: Machine, start: u32, tout: u32, c: byte)
    requires m.Valid() && m.script != [] && m.script[0] == Recv(c) && !Closes(m.rx, c)
    ensures Poll(m, start, tout) == Poll(m.(rx := FeedByte(m.rx, c).rx, script := m.script[1..]), start, tout)
  {
  }

  /**
   * Bytes without `\n` that fit in the buffer are appended to the line,
   * one after the other, and nothing else happens.
   */
  lemma {:induction false} FeedText(m: Machine, start: u32, tout: u32, s: seq<byte>, rest: seq<Event>)
    requires m.Valid() && m.script == Bytes(s) + rest
    requires LF !in s && m.rx.len + |s| <= SIM_RX_BUFF_SZ
    decreases |s|
    ensures var n := m.rx.len;
      Poll(m, start, tout) ==
      Poll(m.(rx := Rx(m.rx.buf[..n] + s + m.rx.buf[n + |s|..], n + |s|), script := rest), start, tout)
  {
    var n, b := m.rx.len, m.rx.buf;
    if s == [] {
      assert b[..n] + s + b[n + |s|..] == b;
      assert m.script == rest;
    } else {
      BytesCons(s, rest);
      PassByte(m, start, tout, s[0]);
      var m1 := m.(rx := Rx(b[n := s[0]], n + 1), script := Bytes(s[1..]) + rest);
      FeedText(m1, start, tout, s[1..], rest);
      WriteNext(b, n, s);
    }
  }

  lemma {:induction false} BytesCons(s: seq<byte>, rest: seq<Event>)
    requires s != []
    ensures (Bytes(s) + rest)[0] == Recv(s[0]) && (Bytes(s) + rest)[1..] == Bytes(s[1..]) + rest
  {
    assert s == [s[0]] + s[1..];
    BytesAppend([s[0]], s[1..]);
  }

  /** Storing the first of `s` at `n` and the rest after it is storing `s` at `n`. */
  lemma {:induction false} WriteNext(b: seq<byte>, n: nat, s: seq<byte>)
    requires s != [] && n + |s| <= |b|
    ensures var b1 := b[n := s[0]];
      b1[..n + 1] + s[1..] + b1[n + 1 + |s[1..]|..] == b[..n] + s + b[n + |s|..]
  {
    var b1 := b[n := s[0]];
    assert b1[..n + 1] == b[..n] + [s[0]];
    assert [s[0]] + s[1..] == s;
  }

  /** A `\n` after `OK\r` ends the wait with Ok and empties the line. */
  lemma {:induction false} CloseOk(m: Machine, start: u32, tout: u32, rest: seq<Event>)
    requires m.Valid() && m.rx.Content() == OK_LINE && m.script == [Recv(LF)] + rest
    ensures Poll(m, start, tout) == Step(m.(rx := m.rx.(len := 0), script := rest), Returned(Ok))
  {
    assert Closes(m.rx, LF);
  }

  /** A `\n` after `ERROR\r` ends the wait with Err and empties the line. */
  lemma {:induction false} CloseError(m: Machine, start: u32, tout: u32, rest: seq<Event>)
    requires m.Valid() && m.rx.Content() == ERROR_LINE && m.script == [Recv(LF)] + rest
    ensures Poll(m, start, tout) == Step(m.(rx := m.rx.(len := 0), script := rest), Returned(Err))
  {
    assert Closes(m.rx, LF);
  }

  /**
   * A `\n` after any other line ending in `\r` hands the line without its
   * `\r` to the hooks, empties the buffer and goes on waiting.
   */
  lemma {:induction false} CloseLine(m: Machine, start: u32, tout: u32, line: seq<byte>, rest: seq<Event>)
    requires m.Valid() && m.rx.Content() == line + [CR] && m.script == [Recv(LF)] + rest
    requires line + [CR] != OK_LINE && line + [CR] != ERROR_LINE
    ensures Poll(m, start, tout) ==
      Poll(m.(rx := Rx(m.rx.buf[|line| := NUL], 0), chain := Dispatch(m.chain, line), script := rest), start, tout)
  {
    assert m.rx.buf[m.rx.len - 1] == m.rx.Content()[m.rx.len - 1];
    assert Closes(m.rx, LF);
    assert m.rx.buf[..m.rx.len - 1] == m.rx.Content()[..|line|];
  }

  /** The bytes `OK\r\n` arriving on a fresh line answer Ok. */
  lemma {:induction false} OkReply(m: Machine, start: u32, tout: u32, rest: seq<Event>)
    requires m.Valid() && m.rx.len == 0
    requires m.script == Bytes(OK_LINE + [LF]) + rest
    ensures Poll(m, start, tout) ==
      Step(m.(rx := Rx(Overwrite(m.rx.buf, OK_LINE), 0), script := rest), Returned(Ok))
  {
    BytesAppend(OK_LINE, [LF]);
    FeedText(m, start, tout, OK_LINE, [Recv(LF)] + rest);
    var m1 := m.(rx := Rx(m.rx.buf[..0] + OK_LINE + m.rx.buf[3..], 3), script := [Recv(LF)] + rest);
    CloseOk(m1, start, tout, rest);
    assert m.rx.buf[..0] + OK_LINE + m.rx.buf[3..] == Overwrite(m.rx.buf, OK_LINE);
  }

  /** The bytes `ERROR\r\n` arriving on a fresh line answer Err. */
  lemma {:induction false} ErrorReply(m: Machine, start: u32, tout: u32, rest: seq<Event>)
    requires m.Valid() && m.rx.len == 0
    requires m.script == Bytes(ERROR_LINE + [LF]) + rest
    ensures Poll(m, start, tout) ==
      Step(m.(rx := Rx(Overwrite(m.rx.buf, ERROR_LINE), 0), script := rest), Returned(Err))
  {
    BytesAppend(ERROR_LINE, [LF]);
    FeedText(m, start, tout, ERROR_LINE, [Recv(LF)] + rest);
    var m1 := m.(rx := Rx(m.rx.buf[..0] + ERROR_LINE + m.rx.buf[6..], 6), script := [Recv(LF)] + rest);
    CloseError(m1, start, tout, rest);
    assert m.rx.buf[..0] + ERROR_LINE + m.rx.buf[6..] == Overwrite(m.rx.buf, ERROR_LINE);
  }

  /**
   * A line that fits, followed by `\r\n`, on a fresh line and not a
   * terminal line: it is dispatched to the hooks and the wait goes on.
   */
  lemma {:induction false} LineReply(m: Machine, start: u32, tout: u32, line: seq<byte>, rest: seq<Event>)
    requires m.Valid() && m.rx.len == 0
    requires LF !in line && |line| < SIM_RX_BUFF_SZ
    requires line + [CR] != OK_LINE && line + [CR] != ERROR_LINE
    requires m.script == Bytes(line + [CR, LF]) + rest
    ensures Poll(m, start, tout) ==
      Poll(m.(rx := Rx(Overwrite(m.rx.buf, line + [NUL]), 0), chain := Dispatch(m.chain, line), script := rest),
           start, tout)
  {
    var text := line + [CR];
    TextThenLf(line, rest);
    FeedText(m, start, tout, text, [Recv(LF)] + rest);
    var buf1 := m.rx.buf[..0] + text + m.rx.buf[|text|..];
    var m1 := m.(rx := Rx(buf1, |text|), script := [Recv(LF)] + rest);
    assert m1.rx.Content() == text;
    CloseLine(m1, start, tout, line, rest);
    StripStored(m.rx.buf, line);
  }

  lemma {:induction false} TextThenLf(line: seq<byte>, rest: seq<Event>)
    requires LF !in line
    ensures Bytes(line + [CR, LF]) + rest == Bytes(line + [CR]) + ([Recv(LF)] + rest)
    ensures LF !in line + [CR]
  {
    assert line + [CR, LF] == (line + [CR]) + [LF];
    BytesAppend(line + [CR], [LF]);
  }

  lemma {:induction false} StripStored(b: seq<byte>, line: seq<byte>)
    requires |line| < |b|
    ensures (b[..0] + (line + [CR]) + b[|line| + 1..])[|line| := NUL] == Overwrite(b, line + [NUL])
  {
  }

  /**
   * With echo on, `AT+CMGF=1\r` comes back before the answer: the echo is
   * an ordinary line (it still holds its first `\r`), and the `OK` after
   * it answers the command.
   */
  lemma {:induction false} EchoThenOk(m: Machine, tout: u32, rest: seq<Event>)
    requires m.Valid() && m.rx.len == 0
    requires m.script == Bytes(Ascii("AT+CMGF=1\r\r\nOK\r\n")) + rest
    ensures var s := WaitResp(m, tout);
      s.out == Returned(Ok) && s.m.rx.len == 0 && s.m.script == rest && s.m.sent == m.sent
  {
    var echo := EchoText();
    SplitBytes(echo + [CR, LF], OK_LINE + [LF], rest);
    assert |echo + [CR]| == 11;
    LineReply(m, m.clock, tout, echo, Bytes(OK_LINE + [LF]) + rest);
    var m1 := m.(rx := Rx(Overwrite(m.rx.buf, echo + [NUL]), 0), chain := Dispatch(m.chain, echo),
                 script := Bytes(OK_LINE + [LF]) + rest);
    OkReply(m1, m.clock, tout, rest);
  }

  lemma {:induction false} SplitBytes(a: seq<byte>, b: seq<byte>, rest: seq<Event>)
    ensures Bytes(a + b) + rest == Bytes(a) + (Bytes(b) + rest)
  {
    BytesAppend(a, b);
  }

  lemma {:induction false} EchoText() returns (echo: seq<byte>)
    ensures echo == Ascii("AT+CMGF=1\r")
    ensures && Ascii("AT+CMGF=1\r\r\nOK\r\n") == (echo + [CR, LF]) + (OK_LINE + [LF])
      && LF !in echo && |echo| == 10
  {
    echo := Ascii("AT+CMGF=1\r");
  }

  /**
   * When no byte is available and the wrapped time since the start exceeds
   * the budget: the prompt marker answers Prompt and empties the line;
   * any other open line answers Tout and stays in the buffer.
   */
  lemma {:induction false} Deadline(m: Machine, start: u32, tout: u32, now: u32, rest: seq<Event>)
    requires m.Valid() && m.script == [Idle(now)] + rest && Expired(now, start, tout)
    ensures var s := Poll(m, start, tout);
      && s.m.script == rest && s.m.clock == now && s.m.chain == m.chain
      && (s.out == Returned(Prompt) <==> m.rx.Content() == PROMPT_MARK)
      && (s.out == Returned(Prompt) ==> s.m.rx == m.rx.(len := 0))
      && (s.out != Returned(Prompt) ==> s.out == Returned(Tout) && s.m.rx == m.rx)
  {
    assert IsPrompt(m.rx) <==> m.rx.Content() == PROMPT_MARK by {
      if m.rx.len == 2 { assert m.rx.Content() == [m.rx.buf[0], m.rx.buf[1]]; }
    }
  }

  /**
   * Why a poll loop ended: a terminal result comes right after a `\n` and
   * leaves the line empty; Tout and Prompt come at an idle poll past the
   * budget, whose clock reading the machine keeps.
   */
  lemma {:induction false} PollEndsOnCause(m: Machine, start: u32, tout: u32)
    requires m.Valid()
    ensures var s := Poll(m, start, tout);
      var k := |m.script| - |s.m.script| - 1;
      && Suffix(m.script, s.m.script)
      && (s.out in {Returned(Ok), Returned(Err)} ==> 0 <= k && m.script[k] == Recv(LF) && s.m.rx.len == 0)
      && (s.out in {Returned(Tout), Returned(Prompt)} ==>
            0 <= k && m.script[k].Idle? && Expired(m.script[k].now, start, tout) && s.m.clock == m.script[k].now)
  {
    PollFollows(m, start, tout);
    PollEndsOnTerminal(m, start, tout);
    PollEndsOnDeadline(m, start, tout);
  }

  /** Ok and Err come right after a `\n`, with the line left empty. */
  lemma {:induction false} PollEndsOnTerminal(m: Machine, start: u32, tout: u32)
    requires m.Valid()
    ensures var s := Poll(m, start, tout);
      var k := |m.script| - |s.m.script| - 1;
      (s.out == Returned(Ok) || s.out == Returned(Err)) ==> 0 <= k && m.script[k] == Recv(LF) && s.m.rx.len == 0
    decreases |m.script|
  {
    if m.script != [] {
      if Continues(m, start, tout) {
        var m' := PollSkips(m, start, tout);
        var s' := Poll(m', start, tout);
        assert Poll(m, start, tout) == s';
        PollEndsOnTerminal(m', start, tout);
        PollFollows(m', start, tout);
        if s'.out.Returned? {
          ShiftCause(m.script, s'.m.script);
        }
      } else {
        PollStops(m, start, tout);
      }
    }
  }

  /** Tout and Prompt come at an idle poll past the budget, whose clock reading is kept. */
  lemma {:induction false} PollEndsOnDeadline(m: Machine, start: u32, tout: u32)
    requires m.Valid()
    ensures var s := Poll(m, start, tout);
      var k := |m.script| - |s.m.script| - 1;
      (s.out == Returned(Tout) || s.out == Returned(Prompt)) ==>
        0 <= k && m.script[k].Idle? && Expired(m.script[k].now, start, tout) && s.m.clock == m.script[k].now
    decreases |m.script|
  {
    if m.script != [] {
      if Continues(m, start, tout) {
        var m' := PollSkips(m, start, tout);
        var s' := Poll(m', start, tout);
        assert Poll(m, start, tout) == s';
        PollEndsOnDeadline(m', start, tout);
        PollFollows(m', start, tout);
        if s'.out.Returned? {
          ShiftCause(m.script, s'.m.script);
        }
      } else {
        PollStops(m, start, tout);
      }
    }
  }

  /** The machine after the byte `c` at the front of the script was fed to the line. */
  function AfterByte(m: Machine, c: byte): (m': Machine)
    requires m.Valid() && m.script != []
    ensures m'.Valid() && m'.script == m.script[1..] && m'.clock == m.clock && m'.sent == m.sent
  {
    var fed := FeedByte(m.rx, c);
    m.(rx := fed.rx, chain := if fed.ev.Line? then Dispatch(m.chain, fed.ev.content) else m.chain,
       script := m.script[1..])
  }

  /**
   * One step of the poll loop on a byte: a terminal line ends the wait in
   * the state after the byte, any other byte leaves the rest of the wait
   * to that state.
   */
  lemma {:induction false} PollByte(m: Machine, start: u32, tout: u32, c: byte)
    requires m.Valid() && m.script != [] && m.script[0] == Recv(c)
    ensures var fed := FeedByte(m.rx, c);
      Poll(m, start, tout) ==
        if fed.ev.Terminal? then Step(AfterByte(m, c), Returned(fed.ev.result)) else Poll(AfterByte(m, c), start, tout)
  {
  }

  /**
   * One step of the poll loop on an idle poll reading `now`: past the
   * budget the wait ends, otherwise the rest of the wait starts from the
   * new clock reading.
   */
  lemma {:induction false} PollIdle(m: Machine, start: u32, tout: u32, now: u32)
    requires m.Valid() && m.script != [] && m.script[0] == Idle(now)
    ensures var m' := m.(script := m.script[1..], clock := now);
      Poll(m, start, tout) ==
        if !Expired(now, start, tout) then Poll(m', start, tout)
        else if IsPrompt(m.rx) then Step(m'.(rx := m.rx.(len := 0)), Returned(Prompt))
        else Step(m', Returned(Tout))
  {
  }

  /** The first event of the script does not end the wait. */
  predicate Continues(m: Machine, start: u32, tout: u32)
    requires m.Valid() && m.script != []
  {
    match m.script[0]
    case Recv(c) => !FeedByte(m.rx, c).ev.Terminal?
    case Idle(now) => !Expired(now, start, tout)
  }

  /** A first event that does not end the wait leaves a shorter wait with the same outcome. */
  lemma {:induction false} PollSkips(m: Machine, start: u32, tout: u32) returns (m': Machine)
    requires m.Valid() && m.script != [] && Continues(m, start, tout)
    ensures m'.Valid() && m'.script == m.script[1..]
    ensures Poll(m, start, tout) == Poll(m', start, tout)
  {
    var rest := m.script[1..];
    match m.script[0]
    case Recv(c) =>
      var fed := FeedByte(m.rx, c);
      m' := if fed.ev.Line? then m.(script := rest, rx := fed.rx, chain := Dispatch(m.chain, fed.ev.content))
            else m.(script := rest, rx := fed.rx);
    case Idle(now) =>
      m' := m.(script := rest, clock := now);
  }

  /** A first event that ends the wait: a closing `\n` for Ok and Err, a late idle poll for Tout and Prompt. */
  lemma {:induction false} PollStops(m: Machine, start: u32, tout: u32)
    requires m.Valid() && m.script != [] && !Continues(m, start, tout)
    ensures var s := Poll(m, start, tout);
      && s.out.Returned? && s.m.script == m.script[1..]
      && (s.out in {Returned(Ok), Returned(Err)} ==> m.script[0] == Recv(LF) && s.m.rx.len == 0)
      && (s.out in {Returned(Tout), Returned(Prompt)} ==>
            m.script[0].Idle? && Expired(m.script[0].now, start, tout) && s.m.clock == m.script[0].now)
  {
  }

  /** The last event consumed from `a[1..]` is the last one consumed from `a`. */
  lemma {:induction false} ShiftCause(a: seq<Event>, b: seq<Event>)
    requires a != [] && Suffix(a[1..], b) && |b| < |a| - 1
    ensures a[|a| - |b| - 1] == a[1..][|a| - 1 - |b| - 1]
  {
  }

  /**
   * The timeout fires at the first idle poll past the budget and at no
   * other: every idle poll the loop went through before the one it ended
   * on was within the budget.
   */
  lemma {:induction false} PollTimesOutAtFirstLatePoll(m: Machine, start: u32, tout: u32)
    requires m.Valid()
    ensures var s := Poll(m, start, tout);
      var k := |m.script| - |s.m.script| - 1;
      && Suffix(m.script, s.m.script)
      && (forall j | 0 <= j < k && m.script[j].Idle? :: !Expired(m.script[j].now, start, tout))
    decreases |m.script|
  {
    PollFollows(m, start, tout);
    if m.script != [] {
      if Continues(m, start, tout) {
        var m' := PollSkips(m, start, tout);
        PollTimesOutAtFirstLatePoll(m', start, tout);
        var s' := Poll(m', start, tout);
        ShiftInTime(m.script, |m.script| - |s'.m.script| - 1, start, tout);
      }
    }
  }

  /** A loop still waiting at the end of the script met no idle poll past the budget. */
  lemma {:induction false} PollStallsInTime(m: Machine, start: u32, tout: u32)
    requires m.Valid()
    ensures Poll(m, start, tout).out == StillWaiting ==>
      forall j | 0 <= j < |m.script| && m.script[j].Idle? :: !Expired(m.script[j].now, start, tout)
    decreases |m.script|
  {
    if m.script != [] {
      if Continues(m, start, tout) {
        var m' := PollSkips(m, start, tout);
        PollStallsInTime(m', start, tout);
        if Poll(m', start, tout).out == StillWaiting {
          assert |m'.script| == |m.script| - 1;
          ShiftInTime(m.script, |m.script|, start, tout);
        }
      } else {
        PollStops(m, start, tout);
      }
    }
  }

  /** Idle polls within budget among the first `n - 1` of `a[1..]` and in `a[0]`: within budget among the first `n` of `a`. */
  lemma {:induction false} ShiftInTime(a: seq<Event>, n: int, start: u32, tout: u32)
    requires a != [] && n <= |a|
    requires a[0].Idle? ==> !Expired(a[0].now, start, tout)
    requires forall j | 0 <= j < n - 1 && a[1..][j].Idle? :: !Expired(a[1..][j].now, start, tout)
    ensures forall j | 0 <= j < n && a[j].Idle? :: !Expired(a[j].now, start, tout)
  {
    forall j | 0 <= j < n && a[j].Idle? ensures !Expired(a[j].now, start, tout) {
      if j > 0 { assert a[j] == a[1..][j - 1]; }
    }
  }

  /**
   * An open line that filled the buffer without a `\r` in its last counted
   * slot never closes again: every later byte, `\n` included, lands in the
   * spare slot, no hook sees a line, and no wait can end with Ok, Err or
   * Prompt; the first 128 bytes stay as they were.
   */
  lemma {:induction false} JammedLineNeverCloses(m: Machine, start: u32, tout: u32)
    requires m.Valid() && m.rx.len == SIM_RX_BUFF_SZ && m.rx.buf[SIM_RX_BUFF_SZ - 1] != CR
    ensures var s := Poll(m, start, tout);
      && s.out in {Returned(Tout), StillWaiting}
      && s.m.rx.len == SIM_RX_BUFF_SZ && s.m.rx.buf[..SIM_RX_BUFF_SZ] == m.rx.buf[..SIM_RX_BUFF_SZ]
      && s.m.chain == m.chain
    decreases |m.script|
  {
    if m.script != [] {
      var rest := m.script[1..];
      match m.script[0]
      case Recv(c) =>
        var fed := FeedByte(m.rx, c);
        assert !Closes(m.rx, c);
        assert fed.rx.buf[SIM_RX_BUFF_SZ - 1] == m.rx.buf[SIM_RX_BUFF_SZ - 1];
        JammedLineNeverCloses(m.(rx := fed.rx, script := rest), start, tout);
      case Idle(now) =>
        assert !IsPrompt(m.rx);
        if !Expired(now, start, tout) {
          JammedLineNeverCloses(m.(script := rest, clock := now), start, tout);
        }
    }
  }
}
