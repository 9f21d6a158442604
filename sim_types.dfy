// Shared vocabulary of the SIM800 driver model: bytes, the buffer and
// timeout constants, the result codes and the scripted environment events.

module SimTypes {

  /** `uint32_t` and the 32-bit `unsigned` of the clock and the timeouts. */
  newtype u32 = x: int | 0 <= x < 0x1_0000_0000

  /** A byte of the serial line (the driver stores `read()`'s 0..255 in a `char`). */
  newtype byte = x: int | 0 <= x < 256

  datatype Option<+T> = None | Some(value: T)

  // Constants of SimpleSIM.h
  const SIM_DEF_BOOT_DELAY: u32 := 30000
  const SIM_DEF_CMD_TOUT: u32 := 1000
  const SIM_DEF_MSG_TOUT: u32 := 30000
  const SIM_RX_BUFF_SZ: nat := 128
  /** `m_rx_buff` has one slot more than the line capacity. */
  const SIM_RX_STORAGE: nat := SIM_RX_BUFF_SZ + 1

  // The ASCII bytes the driver compares against or writes
  const NUL: byte := 0
  const LF: byte := 10
  const CR: byte := 13
  const CTRL_Z: byte := 26
  const SPACE: byte := 32
  const GT: byte := 62

  /** The bytes of an ASCII string literal of the source. */
  function Ascii(s: string): (r: seq<byte>)
    requires forall i | 0 <= i < |s| :: s[i] as int < 256
    ensures |r| == |s|
    ensures forall i | 0 <= i < |s| :: r[i] as int == s[i] as int
  {
    seq(|s|, i requires 0 <= i < |s| => s[i] as int as byte)
  }

  /** sim_result_t */
  datatype SimResult = Prompt | Ok | Err | Tout

  /** The integer value of each enumerator of sim_result_t. */
  function Code(r: SimResult): (c: int)
    ensures FromCode(c) == Some(r)
  {
    match r
    case Prompt => 1
    case Ok => 0
    case Err => -1
    case Tout => -2
  }

  /** The enumerator with a given integer value, if any. */
  function FromCode(c: int): (r: Option<SimResult>)
    ensures r.Some? <==> -2 <= c <= 1
  {
    if c == 1 then Some(Prompt)
    else if c == 0 then Some(Ok)
    else if c == -1 then Some(Err)
    else if c == -2 then Some(Tout)
    else None
  }

  /**
   * One observation of the environment by the driver's poll loop: either
   * `available()` is true and `read()` yields a byte, or no byte is
   * available and `millis()` reads `now`.
   */
  datatype Event = Recv(c: byte) | Idle(now: u32)

  /**
   * What a wait returns. StillWaiting stands for a run in which the script
   * ended while the driver was still polling: the driver itself would keep
   * polling, so no result exists yet.
   */
  datatype Outcome = Returned(result: SimResult) | StillWaiting

  /** `now - start` in uint32 arithmetic: the time since `start`, also across the wrap of the clock. */
  function Since(now: u32, start: u32): (d: u32)
    ensures now >= start ==> d as int == now as int - start as int
    ensures now < start ==> d as int == 0x1_0000_0000 + now as int - start as int
  {
    if now >= start then now - start else (now as int - start as int + 0x1_0000_0000) as u32
  }

  /** Since is subtraction modulo 2^32: adding it to `start` with wrap gives `now`. */
  lemma SinceIsModular(now: u32, start: u32)
    ensures Since(now, start) as int == (now as int - start as int) % 0x1_0000_0000
    ensures (start as int + Since(now, start) as int) % 0x1_0000_0000 == now as int
  {
  }

  /** `millis() - start > tout`: more than `tout` milliseconds have passed since `start`. */
  predicate Expired(now: u32, start: u32, tout: u32)
    ensures Expired(now, start, tout) ==> now != start
  {
    Since(now, start) > tout
  }

  /** The events of a stretch of bytes arriving back to back. */
  function Bytes(s: seq<byte>): (r: seq<Event>)
    ensures |r| == |s|
    ensures forall i | 0 <= i < |s| :: r[i] == Recv(s[i])
  {
    if s == [] then [] else [Recv(s[0])] + Bytes(s[1..])
  }

  lemma {:induction false} BytesAppend(a: seq<byte>, b: seq<byte>)
    ensures Bytes(a + b) == Bytes(a) + Bytes(b)
  {
    var l, r := Bytes(a + b), Bytes(a) + Bytes(b);
    assert |l| == |r|;
    forall i | 0 <= i < |l| ensures l[i] == r[i] {
      if i < |a| { assert (a + b)[i] == a[i]; } else { assert (a + b)[i] == b[i - |a|]; }
    }
  }
}
