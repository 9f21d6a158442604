# SimpleSIM receive state machine and command layer, in Dafny

This project models the core of SimpleSIM, an Arduino driver for the SIM800
GSM module that speaks AT commands over a serial line. It covers four parts:

- **The line accumulator of `SimpleSIM::wait_resp`.** Received bytes go into
  `m_rx_buff`, which has 128 counted slots and one spare. A `\n` closes the
  line only when the last counted byte is `\r`. `OK\r` answers `sim_ok` and
  `ERROR\r` answers `sim_err`. Any other closed line loses its `\r` and is
  offered to the hooks. When the buffer is full, further bytes overwrite the
  spare slot.
- **The poll loop of `wait_resp`.** On a deadline with no byte available, it
  answers `sim_prompt` if the open line is exactly `> `, and `sim_tout`
  otherwise.
- **The hook chain (`SIMHook`, `add_hook`).** Hooks are prefix-matching
  observers linked newest first through `m_next`. The first hook that matches
  a line takes it, replacing its old capture.
- **The command layer.** This is the framing of `send`, `send_cmd` and
  `send_msg`; the idle `wait` with its shrinking budget; `wait_boot` with
  wrapping 32-bit uptime; and the seven-command, fail-fast `start`.

The model has two layers:

- `receiver.dfy` and `commands.dfy` hold a value model: a `Machine` holding
  the line, the hook values, the rest of the input script, the clock and the
  bytes written, and the functions `FeedByte`, `Poll`, `WaitRounds`,
  `WaitBoot`, `RunCommands` and `Start` over it. The properties are lemmas
  about these functions.
- `modem.dfy` holds class `SimpleSim`, with the real `array` receive buffer,
  the length, the reset timestamp and a linked hook chain, and `hooks.dfy`
  holds class `Hook`. Each method is proved to leave the driver in exactly the
  state the value model computes from the state it started in.

The serial `Stream` and `millis()` are a class `Port` fed by a finite script.
Each script event is either `Recv(c)` (a byte is available and `read()`
yields `c`) or `Idle(now)` (no byte is available and the clock reads `now`).
Every byte written goes to a ghost sequence `sent`. When the script runs out
while the driver is still polling, the outcome is `StillWaiting`; the real
driver would keep polling.

## Model

| member | source | states |
|---|---|---|
| `SimTypes.Code` | SimpleSIM.h:42-47 | the result codes are prompt = 1, ok = 0, err = -1, tout = -2, and each code decodes back to its result, so the four are distinct |
| `SimTypes.FromCode` | SimpleSIM.h:42-47 | an integer names a result exactly when it is in -2..1 |
| `SimTypes.Since` | SimpleSIM.cpp:28 | `now - start` in uint32: the plain difference when `now >= start`, else the difference plus 2^32; `SinceIsModular` gives its meaning |
| `SimTypes.Expired` | SimpleSIM.cpp:119 | `millis() - start > tout`: more than `tout` ms after `start`, in wrapped time, which never holds at `start` itself |
| `SimTypes.SinceIsModular` | SimpleSIM.cpp:119 | `now - start` on uint32 is the difference modulo 2^32, and adding it to `start` with wrap gives `now` back |
| `Hooks.Strlen` | SimpleSIM.h:23 | `m_prefix_len` counts the bytes before the first NUL: none of them is NUL, and the byte after them is NUL |
| `Hooks.Matches` | SimpleSIM.cpp:153 | a hook with the empty prefix matches every line, and a matching line is at least as long as the prefix |
| `Hooks.MatchesBytewise` | SimpleSIM.cpp:153 | the match is exactly `len >= m_prefix_len` and byte-for-byte equality with the prefix, as `memcmp` tests |
| `Hooks.CStr` | SimpleSIM.cpp:154 | the copy `m_buff = buff` is a prefix of the line without NUL that stops only at the end of the line or at a NUL, so it is the bytes before the first NUL; a line without NUL is copied whole |
| `Hooks.FirstMatch` | SimpleSIM.cpp:109-112 | the hook found matches the line and no newer hook does; none is found exactly when no hook matches |
| `Hooks.Dispatch` | SimpleSIM.cpp:109-112 | offering a line keeps the number of hooks and every prefix |
| `Hooks.DispatchEffect` | SimpleSIM.cpp:109-112 | only the first matching hook's capture changes, and it becomes the line; every other capture is unchanged |
| `Hooks.NewestHookWins` | SimpleSIM.h:57-63 | a hook at the head of the chain whose prefix matches takes the line, and the older hooks keep their values |
| `Hooks.CaptureReplaces` | SimpleSIM.cpp:151-158 | after two lines, the hook that takes the second holds that line alone: the capture is replaced, not appended |
| `Hooks.UrgentHookTakesUrgentLine` | SimpleSIM.h:57-59 | with `+CMT:` added before `+CMT:URGENT`, the line `+CMT:URGENT,1` is captured by the urgent hook only |
| `Hooks.Hook.constructor` | SimpleSIM.h:22-24 | a new hook has `m_prefix_len == strlen(prefix)`, an empty capture and no successor |
| `Hooks.Hook.Key` | SimpleSIM.h:35-36 | the compared prefix has `m_prefix_len` bytes and no NUL |
| `Hooks.Hook.Captured` | SimpleSIM.h:26 | `captured()` is the length of the capture, zero exactly when nothing is captured |
| `Hooks.Hook.IsSet` | SimpleSIM.h:27 | `operator bool` is true exactly when the capture is not empty |
| `Hooks.Hook.Reset` | SimpleSIM.h:30 | `reset()` empties the capture, so `captured()` is 0, and changes nothing else |
| `Hooks.Hook.Offer` | SimpleSIM.cpp:151-158 | `hook` returns true exactly when the line is at least `m_prefix_len` long and starts with the prefix; then the capture becomes the line, otherwise it is unchanged |
| `Hooks.ChainCons` | SimpleSIM.h:60-63 | linking a hook in front of a well-formed chain gives a well-formed chain whose values are the new hook's followed by the old chain's |
| `Hooks.OfferAlong` | SimpleSIM.cpp:109-112 | walking the linked chain newest first and stopping at the first hook that takes the line leaves every hook as `Dispatch` says |
| `Receiver.FeedByte` | SimpleSIM.cpp:90-118 | a byte closes the line exactly when it is `\n` after a buffered `\r`. `OK\r` answers Ok and `ERROR\r` answers Err, both with the buffer emptied. Any other closed line is handed on without its `\r`, with the buffer emptied. Any other byte is stored at `m_rx_len`: it is appended while there is room, and once 128 bytes are held the length and bytes 0..127 stay unchanged |
| `Receiver.Closes` | SimpleSIM.cpp:92 | a `\n` closes the line exactly when the open line is not empty and ends in `\r` |
| `Receiver.IsPrompt` | SimpleSIM.cpp:120-123 | the test of the deadline branch holds exactly when the open line is `> ` |
| `Receiver.Poll` | SimpleSIM.cpp:89-129 | the `for(;;)` loop of `wait_resp` over the script; its properties are `PollFollows`, `PollEndsOnCause`, `PollTimesOutAtFirstLatePoll`, `PollStallsInTime`, `Deadline` and `CloseOk`/`CloseError`/`CloseLine`; it keeps the buffer invariant (length at most 128, 129 slots) |
| `Receiver.OnByte` | SimpleSIM.cpp:90-118 | the byte branch of the loop; its effects are stated by `FeedByte`, `PassByte` and `CloseOk`/`CloseError`/`CloseLine`; it keeps the buffer invariant |
| `Receiver.OnIdle` | SimpleSIM.cpp:119-128 | the idle branch of the loop; its effect is stated by `Deadline`; it keeps the buffer invariant |
| `Receiver.WaitResp` | SimpleSIM.cpp:86-130 | `wait_resp(tout)` starts the loop at the clock reading of the call; its answers are stated by `OkReply`, `ErrorReply`, `EchoThenOk` and the `Poll` lemmas; it keeps the buffer invariant |
| `Receiver.PollFollows` | SimpleSIM.cpp:86-130 | a wait only consumes the front of the script, writes nothing and keeps every prefix. It returns only after consuming an event, and it is still waiting only when the script is used up |
| `Receiver.PollClock` | SimpleSIM.cpp:86-130 | the clock reading a wait ends with is one it saw: the reading at the call or that of an idle poll it consumed |
| `Receiver.PassByte` | SimpleSIM.cpp:114-118 | a byte that does not close the line is stored and the wait goes on |
| `Receiver.FeedText` | SimpleSIM.cpp:114-117 | bytes without `\n` that fit are appended to the line one after another, and nothing else happens |
| `Receiver.CloseOk` | SimpleSIM.cpp:94-100 | `\n` after `OK\r` ends the wait with Ok and an empty line |
| `Receiver.CloseError` | SimpleSIM.cpp:101-107 | `\n` after `ERROR\r` ends the wait with Err and an empty line |
| `Receiver.CloseLine` | SimpleSIM.cpp:108-113 | `\n` after any other line ending in `\r` dispatches the line without `\r` to the hooks, empties the buffer and keeps waiting |
| `Receiver.OkReply` | SimpleSIM.cpp:86-100 | the bytes `OK\r\n` on a fresh line answer Ok and leave the line empty |
| `Receiver.ErrorReply` | SimpleSIM.cpp:86-107 | the bytes `ERROR\r\n` on a fresh line answer Err and leave the line empty |
| `Receiver.LineReply` | SimpleSIM.cpp:108-113 | a non-terminal line that fits, followed by `\r\n`, goes to the hooks and the wait goes on |
| `Receiver.EchoThenOk` | SimpleSIM.cpp:86-130 | an echoed `AT+CMGF=1\r\r\nOK\r\n` answers Ok, leaves the line empty and consumes exactly those bytes |
| `Receiver.Deadline` | SimpleSIM.cpp:119-128 | an idle poll past the budget answers Prompt exactly when the open line is `> `, and then empties it. Otherwise it answers Tout and leaves the buffer as it was |
| `Receiver.PollEndsOnCause` | SimpleSIM.cpp:89-129 | Ok and Err come right after a `\n` and leave the line empty. Tout and Prompt come at an idle poll whose wrapped time since the start exceeds the budget; it combines the two lemmas below |
| `Receiver.PollEndsOnTerminal` | SimpleSIM.cpp:92-107 | Ok and Err are answered right after a closing `\n`, with the line left empty |
| `Receiver.PollEndsOnDeadline` | SimpleSIM.cpp:119-128 | Tout and Prompt are answered at an idle poll more than the budget after the start, whose clock reading is kept |
| `Receiver.AfterByte` | SimpleSIM.cpp:90-118 | the state after one byte has consumed it from the script, with the clock and the bytes written unchanged |
| `Receiver.PollSkips` | SimpleSIM.cpp:89-129 | an event that does not end the wait leaves a shorter wait with the same outcome |
| `Receiver.PollStops` | SimpleSIM.cpp:89-129 | an event that ends the wait is a closing `\n` for Ok and Err, or an idle poll past the budget for Tout and Prompt |
| `Receiver.PollTimesOutAtFirstLatePoll` | SimpleSIM.cpp:119 | every idle poll before the one the wait ended on was within the budget |
| `Receiver.PollStallsInTime` | SimpleSIM.cpp:119 | a wait still polling at the end of the script met no idle poll past the budget |
| `Receiver.JammedLineNeverCloses` | SimpleSIM.cpp:92 | a full buffer whose last counted byte is not `\r` never closes a line again. No hook sees a line, no wait ends with Ok, Err or Prompt, and bytes 0..127 stay unchanged |
| `Commands.Printed` | SimpleSIM.cpp:78-80 | a null cmd writes nothing, and any other cmd writes its bytes up to (not including) its first NUL, or all of them when it has none |
| `Commands.Frame` | SimpleSIM.cpp:75-81 | the frame is `AT` (commands only), the printed text and one terminator byte: its length, its last byte `\r` or 26, and its `AT` head; `UnframeFrame` and `FrameUnframe` are its inverse |
| `Commands.UnframeFrame` | SimpleSIM.cpp:75-81 | every frame `AT` + cmd + `\r` (or cmd + 26) reads back as the printed cmd |
| `Commands.FrameUnframe` | SimpleSIM.cpp:75-81 | any bytes that read back as a text are the frame of that text |
| `Commands.NullCommandIsEmpty` | SimpleSIM.cpp:78-81 | a null cmd frames as `AT\r` or as byte 26 alone |
| `Commands.FrameExamples` | SimpleSIM.cpp:75-81 | `+CMGF=1` as a command frames as `AT+CMGF=1\r`, and `Hi` as a message frames as `Hi` followed by 26 |
| `Commands.CommandFrame` | SimpleSIM.cpp:75-81 | an ASCII command text without NUL frames as `"AT" + text + "\r"` |
| `Commands.Decimal` | SimpleSIM.cpp:40-41 | the baud rate is written as non-empty decimal digits without a leading zero |
| `Commands.DecimalRoundTrip` | SimpleSIM.cpp:41 | the decimal digits read back as the number |
| `Commands.DecimalInjective` | SimpleSIM.cpp:41 | different baud rates give different `+IPR=` texts |
| `Commands.DecimalExamples` | SimpleSIM.cpp:41 | 9600 is written `9600` and 0 is written `0` |
| `Commands.SendWritesFrame` | SimpleSIM.cpp:69-83 | a send writes exactly its frame and nothing more, its wait keeps every prefix, and an answer consumes input |
| `Commands.Send` | SimpleSIM.cpp:69-83 | `send` writes the frame, then runs `wait_resp(tout)`; stated by `SendWritesFrame`, `CommandAnsweredOk` and `CommandAnsweredError`; it keeps the buffer invariant |
| `Commands.SendCmd` | SimpleSIM.h:81-83 | `send_cmd` is a non-continuation send, 1000 ms by default (`DefaultTimeouts`) |
| `Commands.SendMsg` | SimpleSIM.h:86-88 | `send_msg` is a continuation send, 30000 ms by default (`DefaultTimeouts`) |
| `Commands.DefaultTimeouts` | SimpleSIM.h:81-88 | `send_cmd` is `send(cmd, 1000, false)` and `send_msg` is `send(cmd, 30000, true)` |
| `Commands.CommandAnsweredOk` | SimpleSIM.cpp:69-83 | a command answered `OK\r\n` writes its frame, answers Ok and leaves the line empty |
| `Commands.SetTextMode` | SimpleSIM.h:81-83 | `send_cmd("+CMGF=1")` with echo on writes `AT+CMGF=1\r`; the echoed line and the `OK` after it make the command answer Ok, with the line empty and exactly those bytes consumed |
| `Commands.CommandAnsweredError` | SimpleSIM.cpp:69-83 | a command answered `ERROR\r\n` writes its frame, answers Err and leaves the line empty |
| `Commands.NextBudget` | SimpleSIM.cpp:141-143 | the next budget `msec - elapsed` is positive and at most msec. It equals msec only when no time has elapsed |
| `Commands.IdleWait` | SimpleSIM.cpp:134-137 | `wait(msec)` starts the rounds at the clock reading of the call with budget msec, so the budget invariant holds at the start; it never ends early: an Elapsed stop comes only after msec have passed since the call (`WaitRoundsEnds`), and a Quiet stop only after more than msec, counted through a reading the wait saw and, unless the clock wrapped past the call, in plain wrapped time too (`WaitRoundsQuietLate`), and notifications reach the hooks (`WaitCapturesNotification`) |
| `Commands.WaitRounds` | SimpleSIM.cpp:137-144 | the rounds of `wait`: a round that times out ends it, an answer past msec ends it, and any other answer starts a round with `msec - elapsed`; an Elapsed stop has msec passed (`WaitRoundsEnds`) and a Quiet stop has more than msec passed through a reading the wait saw (`WaitRoundsQuietLate`) |
| `Commands.WaitRoundsEnds` | SimpleSIM.cpp:134-145 | `wait` writes nothing and keeps every prefix. It stops as Stalled only when the script runs out, and ends Elapsed only once msec have passed since its start. It ends Quiet only at an idle poll, whose clock reading it keeps |
| `Commands.WaitRoundsQuietLate` | SimpleSIM.cpp:132-145 | with the budget invariant `tout + (time since start) == msec`, a wait that ends Quiet has a clock reading `r` that it actually saw (the reading at the call or an idle poll it consumed, `Observed`). `r` is no later than msec after the start, and the time from the start to the end, counted through `r`, exceeds msec. Unless the clock wrapped past the start, more than msec ms have passed: `wait` never ends early |
| `Commands.QuietAfterWrap` | SimpleSIM.cpp:137-143 | a clock that goes all the way round between two rounds makes `wait(10)` end Quiet only 2 ms after its start in wrapped time, which is why `WaitRoundsQuietLate` counts through a reading the wait saw |
| `Commands.Via` | SimpleSIM.cpp:140 | time measured through an intermediate reading equals the wrapped time whenever the sum stays below 2^32 |
| `Commands.SinceAdd` | SimpleSIM.cpp:140 | wrapped differences add up as long as their sum stays below 2^32 |
| `Commands.WaitCapturesNotification` | SimpleSIM.cpp:134-139 | a notification arriving during `wait` reaches the hooks, and the first idle poll past the budget ends the wait |
| `Commands.BootBudget` | SimpleSIM.cpp:25-31 | `wait_boot` waits exactly when the wrapped uptime is below msec, and then for `msec - uptime` |
| `Commands.WaitBoot` | SimpleSIM.cpp:25-31 | `wait_boot` returns at once when msec have passed since the reset, else it runs `wait(msec - uptime)`; whichever way that wait ends on its own, Elapsed (`WaitBootEnough`) or Quiet (`WaitBootQuietLate`, through a reading it saw), msec have passed since the reset |
| `Commands.WaitBootEnough` | SimpleSIM.cpp:24-31 | `wait_boot` changes nothing once msec have passed since the reset. When its wait ends Elapsed, the uptime at the call plus the time of the wait is at least msec |
| `Commands.WaitBootQuietLate` | SimpleSIM.cpp:24-31 | when the wait of `wait_boot` ends Quiet (the module stayed silent), there is a clock reading `r` the wait actually saw such that the uptime at the call plus the time of the wait, counted through `r`, exceeds msec |
| `Commands.BootBudgetAcrossWrap` | SimpleSIM.cpp:27-30 | reset at 0xFFFFF000 with the clock now at 0x1710 is an uptime of 10000 ms, so `wait_boot(30000)` waits 20000 ms |
| `Commands.RunCommandsSends` | SimpleSIM.cpp:43-65 | what a run writes is the frames of its first k commands, each whole and in order. A run that answers Ok sent every command |
| `Commands.StartupCommands` | SimpleSIM.cpp:40-62 | seven commands: the bare `AT` first (framed `AT\r`), then six non-empty texts without NUL, which are printed whole |
| `Commands.RunCommands` | SimpleSIM.cpp:43-65 | the guarded sends of `start`; stated by `RunCommandsFailFast`, `RunCommandsAllOk`, `RunCommandsOkIff` and `RunCommandsSends` |
| `Commands.SendAll` | SimpleSIM.cpp:43-65 | the reference run that sends every command whatever its answer: one step per command |
| `Commands.RunCommandsFailFast` | SimpleSIM.cpp:43-65 | when commands before i answered Ok and command i did not, the run ends exactly where sending command i left the driver, with that answer; nothing after command i is sent |
| `Commands.RunCommandsAllOk` | SimpleSIM.cpp:43-65 | when every command answers Ok, the run answers Ok where the last send left the driver |
| `Commands.RunCommandsOkIff` | SimpleSIM.cpp:43-65 | the run answers Ok exactly when every command, sent in order, answered Ok |
| `Commands.Start` | SimpleSIM.cpp:34-66 | `start` waits out the boot delay, then runs the seven commands; stated by `StartFailFast`, `StartOkIff`, `StartAfterBoot` and `StartStopsAtError` |
| `Commands.StartFailFast` | SimpleSIM.cpp:44-65 | after the boot wait, `start` returns the answer of the first start-up command not answered Ok, and ends where that send left the driver |
| `Commands.StartOkIff` | SimpleSIM.cpp:44-65 | after the boot wait, `start` answers Ok exactly when all seven start-up commands answered Ok |
| `Commands.StartAfterBoot` | SimpleSIM.cpp:34-44 | past the boot delay, `start` goes straight to the seven commands |
| `Commands.StartStopsAtError` | SimpleSIM.cpp:44-51 | answers OK, OK, ERROR make `start` return Err after writing the first three frames and nothing more |
| `Commands.RunStopsAtError` | SimpleSIM.cpp:44-51 | any run whose first three commands are answered OK, OK, ERROR answers Err after exactly three frames |
| `Modem.SimpleSim.constructor` | SimpleSIM.h:52-55 | a new driver has no hooks, an empty line and reset timestamp 0 |
| `Modem.SimpleSim.AddHook` | SimpleSIM.h:60-63 | the new hook heads the chain and the old chain follows it unchanged |
| `Modem.SimpleSim.Link` | SimpleSIM.h:61-62 | the two pointer writes of `add_hook`: the chain stays well formed and its values gain the new hook at the front |
| `Modem.SimpleSim.Begin` | SimpleSIM.cpp:8-13 | the reset timestamp becomes the current clock reading |
| `Modem.SimpleSim.Reset` | SimpleSIM.cpp:16-22 | the reset timestamp becomes the current clock reading |
| `Modem.SimpleSim.OfferLine` | SimpleSIM.cpp:109-112 | the hook values after the chain walk are `Dispatch` of those before, and nothing else changes |
| `Modem.SimpleSim.Accumulate` | SimpleSIM.cpp:90-118 | the array buffer, the length and the event are exactly `FeedByte` of the old buffer and length |
| `Modem.SimpleSim.TakeByte` | SimpleSIM.cpp:90-118 | the driver after one byte is `FeedByte` applied to its line, with everything else unchanged |
| `Modem.SimpleSim.ByteStep` | SimpleSIM.cpp:90-118 | reading and feeding one byte leaves the driver in exactly `AfterByte` of the old state and that byte (one event consumed, the line fed, a closed line dispatched); it either ends the wait as `Poll` says or leaves the same `Poll` outcome |
| `Modem.SimpleSim.IdleStep` | SimpleSIM.cpp:119-128 | an idle poll either ends the wait as `Poll` says, or consumes the idle event, takes its clock reading and changes nothing else, leaving the same `Poll` outcome |
| `Modem.SimpleSim.WaitResp` | SimpleSIM.cpp:86-130 | the poll loop ends in the state, and with the outcome, of the value model's `WaitResp` |
| `Modem.SimpleSim.Wait` | SimpleSIM.cpp:134-145 | the rounds loop ends in the state and stop reason of `IdleWait` |
| `Modem.SimpleSim.WaitBoot` | SimpleSIM.cpp:25-31 | `wait_boot` ends in the state of the value model's `WaitBoot` |
| `Modem.SimpleSim.Transmit` | SimpleSIM.cpp:75-81 | the bytes written are exactly the frame |
| `Modem.SimpleSim.Send` | SimpleSIM.cpp:69-83 | `send` writes its frame and then waits, as the value model's `Send` says |
| `Modem.SimpleSim.SendCmd` | SimpleSIM.h:81-83 | `send_cmd` is `send(cmd, tout, false)` with a default tout of 1000 |
| `Modem.SimpleSim.SendMsg` | SimpleSIM.h:86-88 | `send_msg` is `send(cmd, tout, true)` with a default tout of 30000 |
| `Modem.SimpleSim.Configure` | SimpleSIM.cpp:43-65 | the seven guarded sends end as `RunCommands` over the start-up commands |
| `Modem.SimpleSim.Start` | SimpleSIM.cpp:34-66 | `start` ends in the state and outcome of the value model's `Start` |

## Left out

- Pin handling in `begin` and `reset` (`digitalWrite`, `pinMode`, `delay(100)`) is left out. Only their effect on the driver is kept: the reset timestamp becomes the clock reading.
- `millis()` and the serial `Stream` are external I/O. They are replaced by a finite script of `Recv`/`Idle` events and a ghost record of the bytes written. Time moves only at idle polls: a `millis()` call outside the poll loop reads the last idle poll's value. Real-time busy waiting is not modelled.
- The driver can poll forever; the model cannot. When the script runs out while the driver is still polling, the wait answers `StillWaiting` and `wait` stops as `Stalled`. Both stand for "no answer yet".
- `unsigned` is taken to be 32 bits wide, as on 32-bit boards. The 16-bit `unsigned` of AVR boards is not modelled.
- Arduino `String` is modelled only through what it holds. `m_buff = buff` and `print(cmd)` keep the bytes up to the first NUL. `str()` and `c_str()` are not separate members, because they only read the capture, which is the field `buff` of `Hooks.Hook`.
- Hook ownership and lifetime are not modelled. Hooks are objects referenced from the chain; the driver does not own them.
- Modem.SimpleSim.Link: requires that the hook is not already in the chain, for the same reason as `AddHook` below; it is the pointer update that `AddHook` performs.
- Modem.SimpleSim.AddHook: requires that the hook is not already in the chain. Adding a hook twice makes the source's chain cyclic, and the model does not represent a cyclic chain.
- A buffer overflow is modelled exactly as the code does it, not "surfaced" as an error. The consequence, that an over-long line without a `\r` in slot 127 never closes, is stated by `Receiver.JammedLineNeverCloses`.
