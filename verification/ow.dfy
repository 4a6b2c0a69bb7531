/** The public surface of the current revision (ow.c): the timer callback
    that dispatches to the running machine, the request functions that lay
    out a frame in the shared buffer and arm the bus, and the response copy. */
module Ow {
  import opened OwConfig
  import opened Wire
  import opened OwHandle
  import opened OwXfer
  import opened OwSearch

  /** `ow_callback`: one timer interrupt. Outside a transfer or a discovery
      (that is, in `Idle` and `Done`) it runs `ow_stop`. */
  function Callback(h: Handle, line: bool): (r: Step)
    requires Valid(h)
    ensures Valid(r.h)
    ensures h.state in {Idle, Done} ==> r.h == h.(state := Idle) && r.io == [TimerStop, Drive(true)]
    ensures h.state != Search ==> r.h.romId == h.romId && r.h.romIdFound == h.romIdFound
    ensures r.h.state == Search ==> h.state == Search
    ensures r.h.state == Xfer ==> h.state == Xfer
  {
    match h.state
    case Xfer => XferTick(h, line)
    case Search => SearchTick(h, line)
    case _ => Stop(h)
  }

  /** Consecutive timer interrupts, one line sample each; the hardware
      actions are concatenated in order. */
  function Run(h: Handle, samples: seq<bool>): (r: Step)
    requires Valid(h)
    ensures Valid(r.h)
    decreases |samples|
  {
    if |samples| == 0 then Step(h, [])
    else
      var s := Callback(h, samples[0]);
      var t := Run(s.h, samples[1..]);
      Step(t.h, s.io + t.io)
  }

  /** An accepted request: a fresh transaction at its first phase, error
      cleared, the bus armed for the reset, the device table and search
      bookkeeping untouched, and the frame plus response inside the buffer. */
  predicate Accepted(h: Handle, r: Step)
  {
    && r.h.error == Ok
    && AtReset(r.h.buf)
    && r.h.buf.writeLen + r.h.buf.readLen <= 10 + MAX_DATA_LEN
    && r.h.romId == h.romId && r.h.romIdFound == h.romIdFound
    && r.h.searchVal == h.searchVal && r.h.searchFound == h.searchFound
    && r.h.searchDiffIdx == h.searchDiffIdx
    && r.io == [Drive(true), SetPeriod(TIM_RST_DET), TimerStart]
  }

  /** `ow_read_single_rom_id`: send READ ROM and read 8 bytes back. */
  function ReadSingleRomId(h: Handle, line: bool): (r: Step)
    requires Valid(h)
    ensures Valid(r.h)
    ensures r.h.error == Ok <==> h.state == Idle && line
    ensures h.state != Idle ==> r.h == h.(state := Idle, error := Busy)
    ensures h.state == Idle && !line ==> r.h == h.(state := Idle, error := Bus)
    ensures r.h.error == Ok ==> Accepted(h, r) && r.h.state == Xfer
    ensures r.h.error == Ok ==> Frame(r.h.buf) == [CMD_READ_ROM] && r.h.buf.readLen == 8
  {
    var (e, st) := Start(h, line);
    if e != Ok then Fail(st.h, e, st.io)
    else
      var b := st.h.buf;
      Step(st.h.(state := Xfer, error := Ok,
                 buf := b.(data := b.data[0 := CMD_READ_ROM], writeLen := 1, readLen := 8)), st.io)
  }

  /** `ow_write`: SKIP ROM, the function command, then `len` payload bytes.
      The payload is never copied into the buffer, so the bytes sent are the
      zeros `ow_start` left there, whatever `payload` holds. */
  function Write(h: Handle, line: bool, fnCmd: bv8, payload: seq<bv8>, len: u16): (r: Step)
    requires Valid(h)
    ensures Valid(r.h)
    ensures r.h.error == Ok <==> len <= MAX_DATA_LEN && h.state == Idle && line
    ensures len > MAX_DATA_LEN ==> r.h == h.(state := Idle, error := Len)
    ensures len <= MAX_DATA_LEN && h.state != Idle ==> r.h == h.(state := Idle, error := Busy)
    ensures len <= MAX_DATA_LEN && h.state == Idle && !line ==> r.h == h.(state := Idle, error := Bus)
    ensures r.h.error == Ok ==> Accepted(h, r) && r.h.state == Xfer
    ensures r.h.error == Ok ==> Frame(r.h.buf) == [CMD_SKIP_ROM, fnCmd] + Zeros(len) && r.h.buf.readLen == 0
  {
    if len > MAX_DATA_LEN then Fail(h, Len, [])
    else
      var (e, st) := Start(h, line);
      if e != Ok then Fail(st.h, e, st.io)
      else
        var b := st.h.buf;
        var data := b.data[0 := CMD_SKIP_ROM][1 := fnCmd];
        assert data[..len + 2] == [CMD_SKIP_ROM, fnCmd] + Zeros(len);
        Step(st.h.(state := Xfer, error := Ok, buf := b.(data := data, writeLen := len + 2)), st.io)
  }

  /** `ow_read`: SKIP ROM and the function command, then read `len` bytes. */
  function Read(h: Handle, line: bool, fnCmd: bv8, len: u16): (r: Step)
    requires Valid(h)
    ensures Valid(r.h)
    ensures r.h.error == Ok <==> len <= MAX_DATA_LEN && h.state == Idle && line
    ensures len > MAX_DATA_LEN ==> r.h == h.(state := Idle, error := Len)
    ensures len <= MAX_DATA_LEN && h.state != Idle ==> r.h == h.(state := Idle, error := Busy)
    ensures len <= MAX_DATA_LEN && h.state == Idle && !line ==> r.h == h.(state := Idle, error := Bus)
    ensures r.h.error == Ok ==> Accepted(h, r) && r.h.state == Xfer
    ensures r.h.error == Ok ==> Frame(r.h.buf) == [CMD_SKIP_ROM, fnCmd] && r.h.buf.readLen == len
  {
    if len > MAX_DATA_LEN then Fail(h, Len, [])
    else
      var (e, st) := Start(h, line);
      if e != Ok then Fail(st.h, e, st.io)
      else
        var b := st.h.buf;
        Step(st.h.(state := Xfer, error := Ok,
                   buf := b.(data := b.data[0 := CMD_SKIP_ROM][1 := fnCmd], writeLen := 2, readLen := len)), st.io)
  }

  /** `ow_update_all_rom_id`: empty the device table and start a discovery.
      `searchFound` keeps whatever the previous discovery left in it. */
  function UpdateAllRomId(h: Handle, line: bool): (r: Step)
    requires Valid(h)
    ensures Valid(r.h)
    ensures r.h.error == Ok <==> h.state == Idle && line
    ensures h.state != Idle ==> r.h == h.(state := Idle, error := Busy)
    ensures h.state == Idle && !line ==> r.h == h.(state := Idle, error := Bus)
    ensures r.h.error == Ok ==> r.h.state == Search && AtReset(r.h.buf)
    ensures r.h.error == Ok ==> r.h.buf.data[0] == CMD_SEARCH_ROM
    ensures r.h.error == Ok ==> r.h.romIdFound == 0 && r.h.searchVal == 0 && r.h.searchDiffIdx == -1
    ensures r.h.error == Ok ==> r.h.searchFound == h.searchFound
    ensures r.h.error == Ok ==> forall i :: 0 <= i < MAX_DEVICE ==> r.h.romId[i] == Zeros(8)
  {
    var (e, st) := Start(h, line);
    if e != Ok then Fail(st.h, e, st.io)
    else
      var b := st.h.buf;
      Step(st.h.(state := Search, error := Ok, buf := b.(data := b.data[0 := CMD_SEARCH_ROM]),
                 romIdFound := 0, searchVal := 0, searchDiffIdx := -1,
                 romId := seq(MAX_DEVICE, _ => Zeros(8))), st.io)
  }

  /** A table index the by-id requests accept. */
  predicate KnownDevice(h: Handle, rom: u8)
  {
    h.romIdFound != 0 && rom < h.romIdFound
  }

  /** `ow_write_by_id`: MATCH ROM, the function command, the selected ROM
      id, then `len` payload bytes (again never copied, so zero). The
      function command goes out before the ROM id. */
  function WriteById(h: Handle, line: bool, rom: u8, fnCmd: bv8, payload: seq<bv8>, len: u16): (r: Step)
    requires Valid(h)
    ensures Valid(r.h)
    ensures r.h.error == Ok <==> len <= MAX_DATA_LEN && KnownDevice(h, rom) && h.state == Idle && line
    ensures len > MAX_DATA_LEN ==> r.h == h.(state := Idle, error := Len)
    ensures len <= MAX_DATA_LEN && !KnownDevice(h, rom) ==> r.h == h.(state := Idle, error := RomId)
    ensures len <= MAX_DATA_LEN && KnownDevice(h, rom) && h.state != Idle ==> r.h == h.(state := Idle, error := Busy)
    ensures len <= MAX_DATA_LEN && KnownDevice(h, rom) && h.state == Idle && !line ==> r.h == h.(state := Idle, error := Bus)
    ensures r.h.error == Ok ==> Accepted(h, r) && r.h.state == Xfer
    ensures r.h.error == Ok ==> Frame(r.h.buf) == [CMD_MATCH_ROM, fnCmd] + h.romId[rom] + Zeros(len)
    ensures r.h.error == Ok ==> r.h.buf.readLen == 0
  {
    if len > MAX_DATA_LEN then Fail(h, Len, [])
    else if h.romIdFound == 0 || rom >= h.romIdFound then Fail(h, RomId, [])
    else
      var (e, st) := Start(h, line);
      if e != Ok then Fail(st.h, e, st.io)
      else
        var b := st.h.buf;
        var data := [CMD_MATCH_ROM, fnCmd] + h.romId[rom] + b.data[10..];
        assert data[..len + 10] == [CMD_MATCH_ROM, fnCmd] + h.romId[rom] + Zeros(len);
        Step(st.h.(state := Xfer, error := Ok, buf := b.(data := data, writeLen := len + 10)), st.io)
  }

  /** `ow_read_by_id`: MATCH ROM, the function command, the selected ROM id,
      then read `len` bytes. */
  function ReadById(h: Handle, line: bool, rom: u8, fnCmd: bv8, len: u16): (r: Step)
    requires Valid(h)
    ensures Valid(r.h)
    ensures r.h.error == Ok <==> len <= MAX_DATA_LEN && KnownDevice(h, rom) && h.state == Idle && line
    ensures len > MAX_DATA_LEN ==> r.h == h.(state := Idle, error := Len)
    ensures len <= MAX_DATA_LEN && !KnownDevice(h, rom) ==> r.h == h.(state := Idle, error := RomId)
    ensures len <= MAX_DATA_LEN && KnownDevice(h, rom) && h.state != Idle ==> r.h == h.(state := Idle, error := Busy)
    ensures len <= MAX_DATA_LEN && KnownDevice(h, rom) && h.state == Idle && !line ==> r.h == h.(state := Idle, error := Bus)
    ensures r.h.error == Ok ==> Accepted(h, r) && r.h.state == Xfer
    ensures r.h.error == Ok ==> Frame(r.h.buf) == [CMD_MATCH_ROM, fnCmd] + h.romId[rom] && r.h.buf.readLen == len
  {
    if len > MAX_DATA_LEN then Fail(h, Len, [])
    else if h.romIdFound == 0 || rom >= h.romIdFound then Fail(h, RomId, [])
    else
      var (e, st) := Start(h, line);
      if e != Ok then Fail(st.h, e, st.io)
      else
        var b := st.h.buf;
        var data := [CMD_MATCH_ROM, fnCmd] + h.romId[rom] + b.data[10..];
        assert data[..10] == [CMD_MATCH_ROM, fnCmd] + h.romId[rom];
        Step(st.h.(state := Xfer, error := Ok, buf := b.(data := data, writeLen := 10, readLen := len)), st.io)
  }

  /** `ow_read_resp`: copy at most `dataSize` bytes of the response region,
      which starts right after the written frame. */
  function ReadResp(h: Handle, dataSize: u16): (r: seq<bv8>)
    requires Valid(h)
    ensures |r| == if dataSize < h.buf.readLen then dataSize else h.buf.readLen
    ensures forall i :: 0 <= i < |r| ==> r[i] == h.buf.data[h.buf.writeLen + i]
  {
    var len := if dataSize < h.buf.readLen then dataSize else h.buf.readLen;
    h.buf.data[h.buf.writeLen .. h.buf.writeLen + len]
  }
}
