/** The driver handle of the current revision (ow.h, multi-device build) and
    the pieces every tick machine shares: `ow_start`, `ow_stop`, and the three
    reset/presence phases both tick machines begin with. */
module OwHandle {
  import opened OwConfig
  import opened Wire
  import Crc8

  /** `sizeof(buf.data)`: ROM command, fn command, 8-byte ROM id, one spare,
      and the payload. */
  const BUF_LEN: nat := 1 + 8 + 1 + MAX_DATA_LEN

  datatype State = Idle | Xfer | Search | Done

  /** `ow_err_t`; `Ok` is OW_ERR_NONE. */
  datatype Err = Ok | Busy | Bus | Reset | Len | RomId

  /** `ow_buf_t`: one byte array shared by the write region
      `data[..writeLen]` and the response region that follows it. */
  datatype Buf = Buf(data: seq<bv8>, bitPh: u8, bitIdx: u8, byteIdx: u16, writeLen: u16, readLen: u16)

  /** `ow_handle_t` without the hardware configuration. */
  datatype Handle = Handle(
    buf: Buf,
    state: State,
    error: Err,
    romIdFound: u8,
    romId: seq<seq<bv8>>,
    searchVal: bv8,
    searchFound: u8,
    searchDiffIdx: i8)

  /** What one call produces: the new handle and its hardware actions. */
  datatype Step = Step(h: Handle, io: seq<Effect>)

  /** The buffer after `memset(&handle->buf, 0, sizeof(ow_buf_t))`. */
  function ZeroBuf(): Buf
  {
    Buf(Zeros(BUF_LEN), 0, 0, 0, 0, 0)
  }

  /** A ROM id whose last byte is the CRC-8 of the first seven. */
  predicate CrcOk(id: seq<bv8>)
  {
    |id| == 8 && Crc8.Crc(id[..7]) == id[7]
  }

  /** The written frame. */
  function Frame(b: Buf): seq<bv8>
    requires b.writeLen <= |b.data|
  {
    b.data[..b.writeLen]
  }

  /** Cursors at the very start of a transaction. */
  predicate AtReset(b: Buf)
  {
    b.bitPh == 0 && b.bitIdx == 0 && b.byteIdx == 0
  }

  /** Response bytes that no read slot has sampled yet are still zero: in the
      write phases the whole response region, in the read phases every byte
      after the cursor and the bits of the cursor byte from `bitIdx` up. */
  predicate Unsampled(b: Buf)
    requires |b.data| == BUF_LEN && b.writeLen + b.readLen <= BUF_LEN
    requires b.bitIdx < 8 && (b.bitPh >= 5 ==> b.byteIdx < b.readLen)
  {
    if b.bitPh <= 4 then
      forall k :: b.writeLen <= k < b.writeLen + b.readLen ==> b.data[k] == 0
    else
      && (forall k :: b.writeLen + b.byteIdx < k < b.writeLen + b.readLen ==> b.data[k] == 0)
      && ClearFrom(b.data[b.writeLen + b.byteIdx], b.bitIdx)
  }

  /** Cursor invariant while the transfer machine runs. */
  predicate XferOk(b: Buf)
    requires |b.data| == BUF_LEN && b.writeLen + b.readLen <= BUF_LEN
  {
    && 1 <= b.writeLen
    && b.bitPh <= 7
    && b.bitIdx < 8
    && (b.bitPh <= 4 ==> b.byteIdx < b.writeLen)
    && (b.bitPh >= 5 ==> b.byteIdx < b.readLen)
    && Unsampled(b)
  }

  /** Bit `q` (0..63) of the candidate id assembled in `data[1..9]`. */
  function CandBit(d: seq<bv8>, q: nat): bool
    requires |d| == BUF_LEN && q < 64
  {
    Bit(d[1 + q / 8], q % 8)
  }

  /** Candidate bits `from..64` are still zero. */
  predicate CandClearFrom(d: seq<bv8>, from: nat)
    requires |d| == BUF_LEN
  {
    forall q :: from <= q < 64 ==> !CandBit(d, q)
  }

  /** ORing candidate bit `p` into its byte changes no other candidate bit. */
  lemma SetCandBit(d: seq<bv8>, p: nat)
    requires |d| == BUF_LEN && p < 64
    ensures var d2 := d[1 + p / 8 := SetBit(d[1 + p / 8], p % 8)];
            forall q :: 0 <= q < 64 ==> CandBit(d2, q) == (q == p || CandBit(d, q))
  {
    var d2 := d[1 + p / 8 := SetBit(d[1 + p / 8], p % 8)];
    forall q | 0 <= q < 64
      ensures CandBit(d2, q) == (q == p || CandBit(d, q))
    {
      if q / 8 == p / 8 {
        assert q % 8 == p % 8 <==> q == p;
      }
    }
  }

  /** Cursor invariant while the search machine runs: the round cursor is
      inside the id and candidate bits not yet chosen are still zero. */
  predicate SearchOk(h: Handle)
    requires |h.buf.data| == BUF_LEN
  {
    && h.romIdFound < MAX_DEVICE
    && h.buf.bitPh <= 12
    && (h.buf.bitPh <= 4 ==> h.buf.bitIdx < 8 && CandClearFrom(h.buf.data, 0))
    && (h.buf.bitPh >= 5 ==> h.buf.bitIdx < 64)
    && (5 <= h.buf.bitPh <= 11 ==> CandClearFrom(h.buf.data, h.buf.bitIdx))
    && (h.buf.bitPh == 12 ==> CandClearFrom(h.buf.data, h.buf.bitIdx + 1))
    && (8 <= h.buf.bitPh <= 10 ==> h.searchVal == 0x00 || h.searchVal == 0x01)
  }

  /** Every handle the driver can reach: the buffer has its C size, the
      frame and response fit in it, the table holds `MAX_DEVICE` ids of which
      the first `romIdFound` passed the CRC check, and the running machine's
      cursors stay inside the buffer. */
  predicate Valid(h: Handle)
  {
    && |h.buf.data| == BUF_LEN
    && h.buf.writeLen + h.buf.readLen <= BUF_LEN
    && |h.romId| == MAX_DEVICE
    && (forall i :: 0 <= i < MAX_DEVICE ==> |h.romId[i]| == 8)
    && h.romIdFound <= MAX_DEVICE
    && (forall i :: 0 <= i < h.romIdFound ==> CrcOk(h.romId[i]))
    && (h.state == Xfer ==> XferOk(h.buf))
    && (h.state == Search ==> SearchOk(h))
  }

  /** A handle in zero-initialised static storage, before any request: idle,
      no error, an empty device table. */
  function Zeroed(): (r: Handle)
    ensures Valid(r) && r.state == Idle && r.error == Ok && r.romIdFound == 0
  {
    Handle(ZeroBuf(), Idle, Ok, 0, seq(MAX_DEVICE, _ => Zeros(8)), 0, 0, 0)
  }

  /** `h2` has the same error code, device table and search bookkeeping as `h`. */
  predicate Untouched(h: Handle, h2: Handle)
  {
    && h2.error == h.error
    && h2.romId == h.romId && h2.romIdFound == h.romIdFound
    && h2.searchVal == h.searchVal && h2.searchFound == h.searchFound
    && h2.searchDiffIdx == h.searchDiffIdx
  }

  /** `ow_start`, with `line` the level `ow_read_bit` samples. */
  function Start(h: Handle, line: bool): (r: (Err, Step))
    ensures r.0 == Busy <==> h.state != Idle
    ensures r.0 == Bus <==> h.state == Idle && !line
    ensures r.0 == Ok <==> h.state == Idle && line
    ensures r.0 != Ok ==> r.1 == Step(h, [])
    ensures r.0 == Ok ==> r.1.h == h.(buf := ZeroBuf())
    ensures r.0 == Ok ==> r.1.io == [Drive(true), SetPeriod(TIM_RST_DET), TimerStart]
  {
    if h.state != Idle then (Busy, Step(h, []))
    else if !line then (Bus, Step(h, []))
    else (Ok, Step(h.(buf := ZeroBuf()), [Drive(true), SetPeriod(TIM_RST_DET), TimerStart]))
  }

  /** `ow_stop`: the single exit of every transaction. */
  function Stop(h: Handle): (r: Step)
    ensures r.h.state == Idle
    ensures r.h.(state := h.state) == h
    ensures r.io == [TimerStop, Drive(true)]
  {
    Step(h.(state := Idle), [TimerStop, Drive(true)])
  }

  /** `ow_stop` followed by the assignment of an error code. */
  function Fail(h: Handle, e: Err, io: seq<Effect>): (r: Step)
    ensures r.h == h.(state := Idle, error := e)
  {
    var s := Stop(h);
    Step(s.h.(error := e), io + s.io)
  }

  /** Stopping twice is stopping once. */
  lemma StopIdempotent(h: Handle)
    ensures Stop(Stop(h).h) == Stop(h)
  {
  }

  /** A tick that arms the timer, drives the line and moves to `next`. */
  function Advance(h: Handle, period: nat, high: bool, next: u8): (r: Step)
    ensures r.h == h.(buf := h.buf.(bitPh := next))
    ensures r.io == [SetPeriod(period), Drive(high)]
  {
    Step(h.(buf := h.buf.(bitPh := next)), [SetPeriod(period), Drive(high)])
  }

  /** Phase 2 of both machines: sample the presence pulse. A released
      (high) line means no device answered. */
  function Presence(h: Handle, line: bool): (r: Step)
    ensures line ==> r.h == h.(state := Idle, error := Reset)
    ensures !line ==> r.h == h.(buf := h.buf.(bitPh := 3)) && r.io == [SetPeriod(TIM_RST)]
  {
    if line then Fail(h, Reset, [])
    else Step(h.(buf := h.buf.(bitPh := 3)), [SetPeriod(TIM_RST)])
  }

  /** Phases 0 to 2 of both machines. */
  function ResetTick(h: Handle, line: bool): (r: Step)
    requires h.buf.bitPh <= 2
    ensures r.h.(state := h.state, error := h.error, buf := h.buf) == h
    ensures h.buf.bitPh < 2 ==> r.io == [SetPeriod(if h.buf.bitPh == 0 then TIM_RST else TIM_RST_DET), Drive(h.buf.bitPh == 1)]
    ensures h.buf.bitPh < 2 || !line ==>
              r.h.state == h.state && r.h.error == h.error && r.h.buf == h.buf.(bitPh := h.buf.bitPh + 1)
    ensures h.buf.bitPh == 2 && line ==> r.h.state == Idle && r.h.error == Reset && r.h.buf == h.buf
  {
    if h.buf.bitPh == 0 then Advance(h, TIM_RST, false, 1)
    else if h.buf.bitPh == 1 then Advance(h, TIM_RST_DET, true, 2)
    else Presence(h, line)
  }
}
