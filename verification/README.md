# 1-Wire timer-driven driver, modelled in Dafny

A model of the nimaltd 1-Wire driver for STM32. The driver runs the
Dallas/Maxim single-wire bus entirely from a periodic timer interrupt. A
request lays out a transaction in a handle and arms the timer. Each timer
expiry (`ow_callback`) then advances the transaction by one phase: it drives
or samples the open-drain line and reprograms the timer period.

The repository holds two revisions of the engine, and both are modelled, each
as its own machine:

- `ow.c` (the current revision) has two phase-counter machines.
  `ow_state_xfer` sends a frame and reads a response. `ow_state_search`
  discovers device ids with the SEARCH ROM binary descent. Requests
  validate lengths and table indices before touching the bus.
- `g431/Core/Src/ow.c` (an older revision) has one state per protocol stage:
  reset, ROM command, ROM id, function command, data write and data read.
  Requests start the transaction first and validate afterwards.

Both revisions share the configuration constants of `ow_config.h` and the
same CRC-8 routine.

A timer tick is a pure function from a handle and the sampled line level to
a new handle plus the hardware actions the tick performs, in program order:

- `Drive(high)` sets or resets the pin;
- `SetPeriod(n)` is the timer autoreload;
- `TimerStart` and `TimerStop` arm and disarm the timer.

`Run` folds a sequence of line samples through the callback. C integer
widths are subset types (`u8`, `u16`, `i8`), and buffers are `seq<bv8>`.

Module layout:

| module | file | models |
|---|---|---|
| `OwConfig` | config.dfy | `ow_config.h` timing and size constants, ROM command bytes |
| `Wire` | wire.dfy | bit tests, bit sets, write-slot timing shared by both revisions |
| `Crc8` | crc8.dfy | `ow_crc` as a function, with its algebra (linear register view, residue property) |
| `CrcLoop` | crc_loop.dfy | `ow_crc` as the C loop nest, proved equal to `Crc8.Crc` |
| `OwHandle` | ow_handle.dfy | handle of `ow.c`, `ow_start`, `ow_stop`, reset/presence phases, handle invariant `Valid` |
| `OwXfer` | ow_xfer.dfy | `ow_state_xfer` |
| `OwSearch` | ow_search.dfy | `ow_state_search` |
| `Ow` | ow.dfy | `ow_callback` and the request functions of `ow.c` |
| `OwProps` | ow_props.dfy | multi-tick properties of `ow.c` |
| `G431Handle` | g431_handle.dfy | handle of the G431 revision, `ow_start`, `ow_stop`, invariants `Valid` and `Reachable` |
| `G431Machine` | g431_machine.dfy | the G431 state functions and `ow_callback` |
| `G431Requests` | g431_requests.dfy | the G431 request functions and `ow_resp_of_read` |
| `G431Props` | g431_props.dfy | multi-tick properties of the G431 revision |
| `OwFrames` | ow_frames.dfy | whole bytes, frames and the search command of `ow_state_xfer` and `ow_state_search` |
| `G431Frames` | g431_frames.dfy | whole bytes of the G431 function command, payload, data read and id read |

## Behaviour as the code has it

Several behaviours of the code differ from what the driver's intended design
promises. The model follows the code.

### `ow.c`

**Requests**

- `ow_write` and `ow_write_by_id` never copy the caller's payload, so the
  bytes sent are the zeros `ow_start` left in the buffer.
- `ow_write_by_id` and `ow_read_by_id` put the function command before the
  ROM id: the frame is `[0x55, fn_cmd, id...]`.
- A request issued while the driver is busy is refused with `Busy`. The
  refusal runs `ow_stop`, which idles the running transaction; it is not
  left alone.
- A bad length (`Len`) or table index (`RomId`) is reported before the busy
  check. It also stops whatever was running.

**Transfer machine**

- After the last bit of a byte, when more bytes remain, the write phase
  stays at 4. Bit 0 of every byte after the first therefore gets a release
  but no low pulse.
- There is no CRC check on a single READ ROM response.
- No completion callback is invoked anywhere.

**Search machine**

- Discovery ends only when the device table is full. A CRC-valid id is
  stored without looking for it in the table, so duplicates are possible.
- `search_found` is not reset by a new discovery, and the `search_last_*`
  fields are never used.
- The descent is the code's one-flag variant, not the textbook last-zero
  bookkeeping.

### G431 revision

**Requests**

- Every request issues SKIP ROM, including the by-id ones, so the MATCH ROM
  state is unreachable. `ow_read_by_id` does not even record the index.
- Arguments are checked after `ow_start`: `Busy` and `Bus` come first, then
  `Param` and `MissRom`. A rejected request has already cleared the buffer
  and started and stopped the timer.

**Id discovery and reading**

- The discovery state has an empty body, so a discovery never completes.
- `ow_read_id` reads the id into table entry 0 with no CRC check.
- `rom_max` is only ever set to 0.

**Transfers**

- Finishing a transfer sets the idle state without stopping the timer. The
  next tick runs `ow_stop`.
- After the function command, a pending read takes precedence over a
  pending write.

## Model

| member | source | states |
|---|---|---|
| Crc8.Crc | ow.c:367-385 | the CRC of no bytes is 0, and running the routine over the input followed by its own CRC leaves the register at 0 |
| Crc8.UpdateByteIsXor | ow.c:372-382 | the eight inner passes for one byte equal eight steps of the feedback register applied to crc XOR byte, so only crc XOR byte matters |
| Crc8.UpdateByteZero | ow.c:372-382 | absorbing one byte yields 0 exactly when the byte equals the current register |
| Crc8.CrcFromAppend | ow.c:370-383 | the byte loop over s + t equals running it over s and continuing over t from that register |
| Crc8.CrcSnoc | ow.c:370-383 | the CRC of s + [x] is one byte-update of the CRC of s with x |
| Crc8.CrcResidue | ow.c:367-385 | the CRC of s + [x] is 0 if and only if x is the CRC of s |
| Crc8.RomIdCheck | ow.c:679 | for an 8-byte id, the last byte equals the CRC of the first seven if and only if the CRC of all eight is 0 |
| Crc8.KnownVector | ow.c:367-385 | the Dallas/Maxim worked example 02 1C B8 01 00 00 00 has CRC 0xA2, and the full 8-byte id has CRC 0 |
| CrcLoop.Compute | g431/Core/Src/ow.c:418-436 | the in-place nested loop returns the functional CRC-8 of the input, and the byte it returns is the only byte whose appending zeroes the CRC |
| OwHandle.Zeroed | ow.h:122-139 | an all-zero handle, as static storage leaves it before any request, is idle with no error and an empty table and satisfies the handle invariant |
| OwHandle.Start | ow.c:327-352 | Busy if and only if not idle; Bus if and only if idle with the line low; otherwise the buffer is cleared, the line released and the timer armed with the detect period; a refusal changes nothing |
| OwHandle.Stop | ow.c:357-362 | the state becomes idle, every other field is kept, and the actions are timer-off then release |
| OwHandle.StopIdempotent | ow.c:357-362 | stopping a stopped handle yields the same handle and actions as stopping once |
| OwHandle.ResetTick | ow.c:395-418 | in both machines (the discovery machine repeats these phases), phase 0 pulls low with the reset period and phase 1 releases with the presence-detect period, each moving one phase on; phase 2 moves on with a low sample and idles with Reset on a high one; nothing else changes |
| OwHandle.Presence | ow.c:407-418 | a high presence sample stops with Reset; a low one moves to the write phase with the reset period |
| OwHandle.SetCandBit | ow.c:649-662 | ORing bit p into byte 1 + p/8 sets candidate bit p and leaves every other candidate bit unchanged |
| OwXfer.WriteLow | ow.c:420-432 | phase 3 pulls the line low for the short time exactly when the current bit is 1 and moves to phase 4, changing nothing else |
| OwXfer.WriteRelease | ow.c:433-472 | phase 4 releases with the rest of the slot; below bit 7 it moves to the next bit of the same byte; after bit 7 it moves to bit 0 of the next byte, or leaves the write region (read phases when a response is pending, done otherwise); no table, error or search field changes |
| OwXfer.ReadSample | ow.c:485-505 | phase 7 ORs the sample into bit bit_idx of response byte byte_idx, which was still 0, moves to the next bit, or after bit 7 to the next byte, and is done exactly when that was the last response byte |
| OwXfer.XferTick | ow.c:390-509 | a transfer tick keeps the invariant and ends in transfer, done or idle; it goes idle if and only if the presence sample is high, and then only the error changes (to Reset) |
| OwSearch.CmdRelease | ow.c:557-581 | releasing a SEARCH ROM command bit keeps the discovery bookkeeping and moves to the next command bit, or after bit 7 to the first read of the rounds |
| OwSearch.FirstSample | ow.c:594-606 | the first read of a round keeps the invariant |
| OwSearch.Discrepancy | ow.c:619-648 | the complement read follows the reference table Rule over (first read, complement read, found flag, last discrepancy, position): on (1,1) it stops with RomId; otherwise it moves to phase 11 with the flag byte meaning "send 1" exactly for the Rule bit, the Rule's found flag and discrepancy index, and the cursor kept |
| OwSearch.SendLow | ow.c:649-662 | the chosen bit's low pulse is emitted with the short period exactly for a 1; candidate bit bitIdx becomes the chosen bit, every other candidate bit and every byte outside that candidate byte is kept, and the machine moves to phase 12 with the invariant kept |
| OwSearch.ScanEnd | ow.c:675-690 | after bit 63, the found count goes up by one if and only if the candidate's CRC byte matches, and the candidate is stored at that index; otherwise the table is unchanged; data[1..] is cleared; done if and only if the table is full |
| OwSearch.SendRelease | ow.c:663-697 | releasing the chosen bit keeps the invariant |
| OwSearch.SearchTick | ow.c:514-701 | a discovery tick keeps the invariant, raises the found count by at most one and never changes an entry already found; it fails only with Reset or RomId |
| Ow.Callback | ow.c:70-85 | dispatch keeps the invariant; done and idle handles are stopped; the table changes only while searching; no tick enters transfer or search |
| Ow.Run | ow.c:70-85 | any sequence of ticks keeps the handle invariant |
| Ow.ReadSingleRomId | ow.c:107-126 | accepted if and only if idle with the line high; then the frame is [0x33] with 8 bytes to read; Busy or Bus otherwise, idling the handle |
| Ow.Write | ow.c:131-157 | Len if the length exceeds the maximum, checked first; otherwise Busy or Bus; on acceptance the frame is [0xCC, fn] followed by len zero bytes, whatever the payload |
| Ow.Read | ow.c:162-188 | Len first, then Busy or Bus; on acceptance the frame is [0xCC, fn] and the read length is len |
| Ow.UpdateAllRomId | ow.c:195-216 | accepted if and only if idle with the line high; then the table is emptied, the found count and flag byte are 0, the last-discrepancy index is -1, SEARCH ROM is staged, and search_found is kept |
| Ow.WriteById | ow.c:221-257 | Len, then RomId when the index is not below the found count, then Busy or Bus; on acceptance the frame is [0x55, fn] followed by the selected id and len zero bytes |
| Ow.ReadById | ow.c:262-298 | Len, then RomId, then Busy or Bus; on acceptance the frame is [0x55, fn] followed by the selected id, with len bytes to read |
| Ow.ReadResp | ow.c:304-318 | returns min(data_size, read_len) bytes, each the response byte that follows the written frame |
| OwFrames.WriteBits | ow.c:420-472 | from phase 3, 2·(8 − bit_idx) ticks send the rest of the current byte LSB first as complete write slots and leave the cursor where the byte ends |
| OwFrames.LaterBytes | ow.c:433-472 | from phase 4 at bit 0, 15 ticks per remaining byte send each byte with only a release for bit 0 and complete slots for bits 1 to 7, then leave the write region |
| OwFrames.WriteFrame | ow.c:420-472 | 1 + 15·write_len ticks send the whole frame: byte 0 as eight complete slots LSB first, every later byte with bit 0 released only, then the read phases or done |
| OwFrames.ReadBits | ow.c:475-505 | from phase 5, 3·(8 − bit_idx) ticks emit that many read slots and OR the third sample of each slot into the next bit of the current response byte |
| OwFrames.ReadBytes | ow.c:475-505 | from phase 5 at bit 0, 24 ticks per remaining response byte emit 8 read slots per byte, fill the bytes in order and finish the transfer |
| OwFrames.ReadResponse | ow.c:475-505 | after the whole read region the transfer is done, the frame is intact, and bit j of response byte k that `ow_read_resp` returns is the line level sampled in the third tick of read slot 8k + j |
| OwFrames.SearchCommand | ow.c:544-580 | from phase 3, 2·(8 − bit_idx) ticks send the SEARCH ROM command byte LSB first as complete write slots and reach the first read of the rounds with the bit cursor at 0 |
| OwProps.ResetAndPresence | ow.c:395-418 | three ticks pull low for 500, release for 100, then either stop with Reset (high sample) or go on to phase 3 with the reset period |
| OwProps.WriteSlot | ow.c:420-442 | phases 3 and 4 together emit exactly one write slot for the current bit; the two periods add to 80, and the low part is the short one if and only if the bit is 1 |
| OwProps.NextByteSkipsLowPulse | ow.c:433-472 | after bit 7 with bytes left, the next tick only releases the line for bit 0 of the next byte and moves to bit 1, so that bit gets no low pulse |
| OwProps.WriteRegionEnd | ow.c:445-466 | at the end of the frame the machine enters the read phases when a response is pending, and is done otherwise |
| OwProps.ReadSampleStoresBit | ow.c:485-492 | a read sample sets the response bit to the sampled level and leaves every other bit and byte unchanged |
| OwProps.ReadCompletes | ow.c:493-505 | the last read slot finishes the transfer; the next tick idles it with the error and the response kept |
| OwProps.XferTickProgress | ow.c:390-509 | every tick that stays in the transfer strictly increases a progress measure that stays below 3 + 16·write_len + 24·read_len |
| OwProps.StaysFinished | ow.c:70-85 | once idle or done, no sequence of ticks re-enters a machine, and an idle handle is left as it is |
| OwProps.XferTerminates | ow.c:390-509 | for any line behaviour, a transfer leaves the transfer machine within 3 + 16·write_len + 24·read_len ticks |
| OwProps.DiscrepancyFollowsRule | ow.c:619-648 | the complement read picks exactly the branch the reference table Rule gives for (first read, second read, found flag, last discrepancy, position), including abort with RomId on (1,1) |
| OwProps.FirstRead | ow.c:582-606 | the first three ticks from phase 5 emit one read slot and record the third sample as 0x01 or 0x00; the rest of the run proceeds from phase 8 |
| OwProps.SecondSlot | ow.c:607-618 | the first two ticks from phase 8 pull low for 10 and release for 10; the rest of the run proceeds from phase 10 |
| OwProps.Decide | ow.c:619-648 | from phase 10, a Rule abort leaves the handle idle with RomId for the rest of the run; otherwise the run proceeds from phase 11 with the Rule bit, found flag and discrepancy index |
| OwProps.SecondRead | ow.c:607-648 | the first three ticks from phase 8 emit one read slot and follow Rule: an abort is final, any other choice continues from phase 11 |
| OwProps.WriteChoice | ow.c:649-697 | two ticks from phase 11 emit the write slot of the chosen bit, store it as candidate bit bitIdx, keep the other candidate bits, and move the cursor |
| OwProps.SearchRound | ow.c:582-697 | eight ticks from phase 5 perform one full round: read, read complement, write the Rule choice into the candidate and onto the bus |
| OwProps.DuplicateKept | ow.c:675-683 | a CRC-valid candidate that is already in the table is stored again at the next index |
| OwProps.TableEntriesCheck | ow.c:679-683 | every id in the table has CRC 0 over all eight bytes |
| OwProps.LengthBoundary | ow.c:136-141 | a length of 16 is accepted on an idle free bus; 17 is refused with Len and leaves the driver idle |
| OwProps.BusyIdlesRunningTransfer | ow.c:162-188 | a request during a running transaction is refused with Busy and the running transaction is idled with its buffer kept |
| G431Handle.Zeroed | g431/Core/Inc/ow.h:123-140 | an all-zero handle is idle with no error and rom_max 0, and is reachable, so every property proved from reachable handles applies from the start |
| G431Handle.Start | g431/Core/Src/ow.c:375-402 | Busy if and only if not idle; Bus if and only if idle with the line low; otherwise the buffer is cleared, the reset state entered and the timer restarted with the detect period |
| G431Handle.Stop | g431/Core/Src/ow.c:407-412 | idle with buffer, error and table kept; timer-off then release |
| G431Handle.SampleKeepsClear | g431/Core/Src/ow.c:753-756 | ORing a high sample into the first clear bit stores the sampled level there and moves the clear region one bit on |
| G431Machine.Dispatch | g431/Core/Src/ow.c:505-522 | MATCH ROM selects the ROM id state, READ ROM the id read, SEARCH ROM and SEARCH ALARM the two discovery states, and every other command the function command state |
| G431Machine.RstTick | g431/Core/Src/ow.c:441-469 | the reset state keeps the structural invariant |
| G431Machine.RomCmdTick | g431/Core/Src/ow.c:474-528 | the ROM command state keeps the structural invariant (behaviour in G431Props.RomCmdByte) |
| G431Machine.RomIdTick | g431/Core/Src/ow.c:533-575 | the ROM id state keeps the structural invariant, so its table index and byte index stay in range |
| G431Machine.ReadRomIdTick | g431/Core/Src/ow.c:580-615 | the id read keeps the structural invariant |
| G431Machine.FnCmdTick | g431/Core/Src/ow.c:620-668 | the function command state keeps the structural invariant |
| G431Machine.DataWTick | g431/Core/Src/ow.c:689-730 | the data write state keeps the structural invariant |
| G431Machine.DataRTick | g431/Core/Src/ow.c:735-771 | the data read state keeps the structural invariant |
| G431Machine.Callback | g431/Core/Src/ow.c:77-113 | dispatch keeps the invariant; the two discovery states change nothing; idle is stopped; only the reset state can change the error (to Reset); only the id read changes the table |
| G431Machine.Run | g431/Core/Src/ow.c:77-113 | any sequence of ticks keeps the structural invariant |
| G431Requests.Begin | g431/Core/Src/ow.c:209-214 | the common prologue starts on an idle free bus; otherwise it records Busy or Bus and idles the running transaction |
| G431Requests.CopyIn | g431/Core/Src/ow.c:220-223 | the first len buffer bytes become the payload and the rest are kept |
| G431Requests.Write | g431/Core/Src/ow.c:205-239 | Busy and Bus first; then Param if len exceeds 16 or a null payload has len > 0; on acceptance SKIP ROM, fn and the copied payload |
| G431Requests.Read | g431/Core/Src/ow.c:244-268 | Busy and Bus first, then Param for len > 16; on acceptance SKIP ROM, fn and the read length |
| G431Requests.WriteById | g431/Core/Src/ow.c:274-315 | Busy, Bus, Param (length), MissRom (index above rom_max), Param (null payload), in that order; on acceptance the index is recorded but SKIP ROM is sent |
| G431Requests.ReadById | g431/Core/Src/ow.c:322-352 | Busy, Bus, Param, MissRom in that order; on acceptance SKIP ROM, fn and the read length, with the index not recorded |
| G431Requests.UpdateAllId | g431/Core/Src/ow.c:135-153 | on an idle free bus the table and rom_max are cleared and SEARCH ROM is staged; otherwise Busy or Bus |
| G431Requests.ReadId | g431/Core/Src/ow.c:183-200 | on an idle free bus the table is cleared (rom_max kept) and READ ROM is staged; otherwise Busy or Bus |
| G431Requests.RespOfRead | g431/Core/Src/ow.c:358-366 | returns r_len and the first r_len buffer bytes |
| G431Props.RequestsReachable | g431/Core/Src/ow.c:135-352 | every request, from any valid handle, leaves the handle reachable: SKIP, READ or SEARCH ROM staged, and unsampled bits clear |
| G431Props.TickKeepsReachable | g431/Core/Src/ow.c:77-113 | one tick keeps the handle reachable |
| G431Props.NeverMatchRom | g431/Core/Src/ow.c:474-528 | from a reachable handle no sequence of ticks reaches the ROM id state |
| G431Props.DiscoveryStalls | g431/Core/Src/ow.c:673-676 | in the discovery state every sequence of ticks leaves the handle unchanged and emits no action |
| G431Props.RunAppend | g431/Core/Src/ow.c:77-113 | running two sample sequences one after the other equals running their concatenation |
| G431Props.IdleStays | g431/Core/Src/ow.c:109-111 | an idle handle stays exactly as it is under any sequence of ticks, each tick only repeating the stop actions |
| G431Props.ResetAndPresence | g431/Core/Src/ow.c:441-469 | the first three ticks pull low for 500 and release for 100; a high third sample leaves the handle idle with Reset for good, a low one enters the ROM command state with the reset period and the run proceeds from there |
| G431Props.RomCmdSlot | g431/Core/Src/ow.c:474-528 | the first two ticks of the ROM command state emit one write slot for the current bit; the run proceeds from the next bit, or after bit 7 from the state the command selects |
| G431Props.RomCmdByte | g431/Core/Src/ow.c:474-528 | 2·(8 − bitI) ticks send the remaining ROM command bits LSB first as write slots, then enter the state that command selects with the bit cursor back at 0 |
| G431Props.SearchCommandStalls | g431/Core/Src/ow.c:474-528 | after the SEARCH ROM byte the discovery state is entered and every later tick leaves the handle as it is and emits nothing |
| G431Props.DiscoveryNeverCompletes | g431/Core/Src/ow.c:135-153 | after a discovery request, a present device and 19 or more ticks, the machine sits in the discovery state with no id and rom_max 0, having emitted only the reset, the presence window and the SEARCH ROM byte |
| G431Props.WriteEndsWithoutStop | g431/Core/Src/ow.c:705-726 | the last write slot goes idle without stopping the timer; the following tick performs the stop |
| G431Props.FnCmdRoutes | g431/Core/Src/ow.c:647-663 | after the function command, read if r_len > 0, else write if w_len > 0, else idle |
| G431Props.ResponseSample | g431/Core/Src/ow.c:749-767 | a response sample stores the line level in the byte ow_resp_of_read returns, keeping the other bits and bytes |
| G431Frames.FnCmdByte | g431/Core/Src/ow.c:620-668 | 2·(8 − bit_i) ticks send the rest of the function command LSB first as complete write slots, then enter the data read if r_len > 0, else the data write if w_len > 0, else idle, with the bit cursor at 0 |
| G431Frames.DataWByte | g431/Core/Src/ow.c:689-730 | 2·(8 − bit_i) ticks send the rest of payload byte byte_i LSB first as complete write slots, then move to the next byte, or go idle with byte_i = w_len after the last one |
| G431Frames.DataWPayload | g431/Core/Src/ow.c:689-730 | from bit 0 of byte byte_i, 16 ticks per byte send the rest of the payload in order and leave the machine idle with byte_i = w_len |
| G431Frames.DataRByte | g431/Core/Src/ow.c:735-771 | 3·(8 − bit_i) ticks emit that many read slots and OR the third sample of slot i into bit bit_i + i of byte byte_i; then the next byte, or idle exactly when byte_i + 1 = r_len |
| G431Frames.DataRBytes | g431/Core/Src/ow.c:735-771 | from bit 0 of byte byte_i, 24 ticks per byte fill the rest of the response in order and leave the machine idle with byte_i = r_len |
| G431Frames.DataRResponse | g431/Core/Src/ow.c:735-771 | after 24·r_len ticks from the first response slot the machine is idle and bit j of byte k that ow_resp_of_read returns is the level sampled in the third tick of slot 8k + j |
| G431Frames.IdByte | g431/Core/Src/ow.c:580-615 | 3·(8 − bit_i) ticks OR the third sample of slot i into bit bit_i + i of byte byte_i of table entry 0; then the next byte, or idle after byte 7 |
| G431Frames.IdBytes | g431/Core/Src/ow.c:580-615 | from bit 0 of byte byte_i, 24 ticks per byte fill the rest of entry 0 in order and leave the machine idle |
| G431Frames.IdRead | g431/Core/Src/ow.c:580-615 | 192 ticks after the READ ROM byte the machine is idle, bit j of byte k of entry 0 is the level sampled in the third tick of slot 8k + j, the other entries, rom_max and the error are unchanged, and nothing checks the CRC |
| G431Props.ReadIdUnchecked | g431/Core/Src/ow.c:597-611 | each id sample lands in entry 0; after 64 bits the machine idles with error and rom_max untouched (no CRC check) |

## Left out

- `ow_init` and the callback registration are not modelled. They hold GPIO
  pin masks, the timer handle and the HAL registration, which are
  hardware configuration.
- `ow_write_bit` and `ow_read_bit` are reduced to the `Drive` action and
  the `line` parameter; the GPIO register access is hardware.
- `__HAL_TIM_CLEAR_IT` and `__HAL_TIM_SET_COUNTER` are not recorded as
  actions. The `- 1` on every autoreload value is dropped, so `SetPeriod`
  carries the slot width itself.
- `ow_is_busy` and `ow_last_error` (both revisions) are one-line getters of
  `state` and `error`; the model reads those fields directly.
- The G431 `OW_TIM_READ_REST` is not defined in `ow_config.h`; it is the
  parameter `readRest`.
- G431 `ow_update_alarm_id` and the alarm table are compiled out
  (`OW_USE_ALARM` is not set). The alarm discovery state is modelled
  (an empty body) and proved unreachable.
- Single-device builds (`OW_MAX_DEVICE == 1`, which remove the search
  machine and the by-id requests) are not modelled; the configuration has
  five devices.
- Interrupt concurrency is not modelled: requests and ticks are sequential
  calls. Racing a request against a tick in the middle of an update is out
  of scope.
- Ow.UpdateAllRomId: no bound on the number of scans is proved. Each
  scan whose CRC byte matches adds one id, duplicates included
  (OwSearch.ScanEnd), and discovery ends once `OW_MAX_DEVICE` such scans
  have happened (ow.c:679-690). A bus whose scans keep failing the CRC
  restarts the scan forever. The model proves the per-scan behaviour
  (OwProps.SearchRound, OwSearch.ScanEnd) rather than a bound.
- G431 transfer termination is not proved as a single bound over a whole
  transaction; the stage lemmas (G431Props.RomCmdByte,
  G431Frames.FnCmdByte, G431Frames.DataWPayload, G431Frames.DataRBytes,
  G431Frames.IdBytes) give each stage's tick count and exit.
- OwSearch.FirstSample: states only the invariant; the recorded flag byte is stated by OwProps.FirstRead.
- OwSearch.SendRelease: states only the invariant; the cursor move and scan end are stated by OwProps.WriteChoice and OwSearch.ScanEnd.
- G431Machine.RstTick: states only the invariant; the behaviour is stated by G431Props.ResetAndPresence.
- G431Machine.RomCmdTick: states only the invariant; the behaviour is stated by G431Props.RomCmdSlot and G431Props.RomCmdByte.
- G431Machine.RomIdTick: states only the invariant; the state is unreachable (G431Props.NeverMatchRom).
- G431Machine.ReadRomIdTick: states only the invariant; the sampling and the bytes filled are stated by G431Props.ReadIdUnchecked, G431Frames.IdByte and G431Frames.IdRead.
- G431Machine.FnCmdTick: states only the invariant; the bits sent and the routing are stated by G431Frames.FnCmdByte and G431Props.FnCmdRoutes.
- G431Machine.DataWTick: states only the invariant; the bytes sent and the end of the write are stated by G431Frames.DataWByte, G431Frames.DataWPayload and G431Props.WriteEndsWithoutStop.
- G431Machine.DataRTick: states only the invariant; the sampling, the bytes filled and the switch to idle are stated by G431Props.ResponseSample, G431Frames.DataRByte and G431Frames.DataRBytes.
