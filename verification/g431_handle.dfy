/** The driver handle of the older G431 revision (g431/Core/Inc/ow.h), its
    `ow_start` and `ow_stop`, and the invariants its tick machine keeps. */
module G431Handle {
  import opened OwConfig
  import opened Wire

  /** `ow_state_t`: one state per protocol stage. */
  datatype State =
    | Idle | Rst | RomCmd | RomId | ReadRomId | FnCmd | DataW | DataR
    | UpdateRomId | UpdateAlarmId

  /** `ow_err_t`; `Ok` is OW_ERR_NONE. */
  datatype Err = Ok | Param | Reset | Bus | Busy | MissRom

  /** `ow_buf_t`: the payload/response bytes, the two command bytes, and the
      cursors (`tmp` is the half-slot counter). */
  datatype Buf = Buf(
    data: seq<bv8>,
    romCmd: bv8,
    romId: u8,
    fnCmd: bv8,
    wLen: u16,
    rLen: u16,
    byteI: u16,
    bitI: u8,
    tmp: u8)

  /** `ow_handle_t` without the hardware configuration; `romIds` is the
      `rom_id` table of 8-byte ids. */
  datatype Handle = Handle(buf: Buf, state: State, error: Err, romMax: u8, romIds: seq<seq<bv8>>)

  datatype Step = Step(h: Handle, io: seq<Effect>)

  /** The buffer after `memset(&handle->buf, 0, sizeof(ow_buf_t))`. */
  function ZeroBuf(): Buf
  {
    Buf(Zeros(MAX_DATA_LEN), 0, 0, 0, 0, 0, 0, 0, 0)
  }

  /** The id table after `memset(handle->rom_id, 0, ...)`. */
  function ZeroIds(): (r: seq<seq<bv8>>)
    ensures |r| == MAX_DEVICE
    ensures forall i :: 0 <= i < MAX_DEVICE ==> r[i] == Zeros(8)
  {
    seq(MAX_DEVICE, _ => Zeros(8))
  }

  /** The shape of the handle, and the cursor bounds each state relies on
      for its array accesses. */
  predicate Valid(h: Handle)
  {
    var b := h.buf;
    && |b.data| == MAX_DATA_LEN
    && |h.romIds| == MAX_DEVICE
    && (forall i :: 0 <= i < MAX_DEVICE ==> |h.romIds[i]| == 8)
    && b.wLen <= MAX_DATA_LEN && b.rLen <= MAX_DATA_LEN
    && b.bitI < 8
    && (h.state == Rst ==> b.tmp <= 2 && b.bitI == 0 && b.byteI == 0)
    && (h.state in {RomCmd, RomId, FnCmd, DataW} ==> b.tmp <= 1)
    && (h.state in {ReadRomId, DataR} ==> b.tmp <= 2)
    && (h.state in {RomCmd, FnCmd} ==> b.byteI == 0)
    && (h.state in {Rst, RomCmd} && b.romCmd == CMD_MATCH_ROM ==> b.romId < MAX_DEVICE && 0 < b.wLen <= 8)
    && (h.state == RomId ==> b.romId < MAX_DEVICE && b.byteI < b.wLen <= 8)
    && (h.state == ReadRomId ==> b.byteI < 8)
    && (h.state == DataW ==> b.byteI < b.wLen)
    && (h.state == DataR ==> b.byteI < b.rLen)
  }

  /** The ROM commands the requests of this revision actually issue. */
  predicate Issued(romCmd: bv8)
  {
    romCmd == CMD_SKIP_ROM || romCmd == CMD_READ_ROM || romCmd == CMD_SEARCH_ROM
  }

  /** Nothing has been sampled into `d` from bit `bit` of byte `i` on:
      those bits are still the zeros `memset` left. */
  predicate ClearAfter(d: seq<bv8>, i: nat, bit: nat)
  {
    && (forall k :: i < k < |d| ==> d[k] == 0)
    && (i < |d| ==> ClearFrom(d[i], bit))
  }

  /** Sampling `line` into the first clear bit stores it there and moves
      the clear region one bit on. */
  lemma SampleKeepsClear(d: seq<bv8>, i: nat, bit: nat, line: bool)
    requires i < |d| && bit < 8 && ClearAfter(d, i, bit)
    ensures var d2 := if line then d[i := SetBit(d[i], bit)] else d;
            && |d2| == |d|
            && Bit(d2[i], bit) == line
            && (forall j :: 0 <= j < 8 && j != bit ==> Bit(d2[i], j) == Bit(d[i], j))
            && (forall k :: 0 <= k < |d| && k != i ==> d2[k] == d[k])
            && (bit < 7 ==> ClearAfter(d2, i, bit + 1))
            && (bit == 7 ==> ClearAfter(d2, i + 1, 0))
  {
    var d2 := if line then d[i := SetBit(d[i], bit)] else d;
    if bit == 7 && i + 1 < |d| {
      assert d2[i + 1] == 0;
      assert forall j :: 0 <= j < 8 ==> !Bit(0, j);
    }
  }

  /** The states the requests can lead to: every request issues SKIP ROM,
      READ ROM or SEARCH ROM, so MATCH ROM (the ROM-id state) and the alarm
      search never come up; and the bits a read has yet to sample are clear. */
  predicate Reachable(h: Handle)
  {
    && Valid(h)
    && h.state != RomId && h.state != UpdateAlarmId
    && (h.state in {Rst, RomCmd} ==> Issued(h.buf.romCmd))
    && (h.state in {Rst, RomCmd, FnCmd} && h.buf.rLen > 0 ==> ClearAfter(h.buf.data, 0, 0))
    && (h.state == DataR ==> ClearAfter(h.buf.data, h.buf.byteI, h.buf.bitI))
    && (h.state in {Rst, RomCmd} && h.buf.romCmd == CMD_READ_ROM ==> ClearAfter(h.romIds[0], 0, 0))
    && (h.state == ReadRomId ==> ClearAfter(h.romIds[0], h.buf.byteI, h.buf.bitI))
  }

  /** A handle in zero-initialised static storage, before any request: idle,
      no error, no id found. */
  function Zeroed(): (r: Handle)
    ensures Reachable(r) && r.state == Idle && r.error == Ok && r.romMax == 0
  {
    Handle(ZeroBuf(), Idle, Ok, 0, ZeroIds())
  }

  /** The actions of a successful `ow_start`. */
  const StartIo: seq<Effect> := [Drive(true), TimerStop, SetPeriod(TIM_RST_DET), TimerStart]

  /** The actions of `ow_stop`. */
  const StopIo: seq<Effect> := [TimerStop, Drive(true)]

  /** `ow_start`: refuses when a transaction is running or when the line is
      held low; otherwise clears the buffer, enters the reset state and arms
      the timer for the first reset tick. */
  function Start(h: Handle, line: bool): (r: (Err, Step))
    ensures r.0 == Busy <==> h.state != Idle
    ensures r.0 == Bus <==> h.state == Idle && !line
    ensures r.0 == Ok <==> h.state == Idle && line
    ensures r.0 != Ok ==> r.1 == Step(h, [])
    ensures r.0 == Ok ==> r.1.h == h.(buf := ZeroBuf(), state := Rst) && r.1.io == StartIo
  {
    if h.state != Idle then (Busy, Step(h, []))
    else if !line then (Bus, Step(h, []))
    else (Ok, Step(h.(buf := ZeroBuf(), state := Rst), StartIo))
  }

  /** `ow_stop`: timer off, line released, idle; nothing else changes. */
  function Stop(h: Handle): (r: Step)
    ensures r.h.state == Idle && r.h.buf == h.buf && r.h.error == h.error
    ensures r.h.romIds == h.romIds && r.h.romMax == h.romMax
    ensures r.io == StopIo
  {
    Step(h.(state := Idle), StopIo)
  }
}
