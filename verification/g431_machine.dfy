/** `ow_callback` of the G431 revision: one state function per protocol
    stage, each driven by the half-slot counter `tmp`. The rest-of-slot
    period `OW_TIM_READ_REST` is not defined in the configuration this
    revision is built against; it is the parameter `readRest`. */
module G431Machine {
  import opened OwConfig
  import opened Wire
  import opened G431Handle


  /** The release half of a write slot. */
  function ReleaseIo(one: bool): seq<Effect>
  {
    [SetPeriod(WriteHighPeriod(one)), Drive(true)]
  }

  /** `ow_state_rst`: pull low for the reset time, release for the detect
      window, then sample the presence pulse. */
  function RstTick(h: Handle, line: bool): (r: Step)
    requires Valid(h) && h.state == Rst
    ensures Valid(r.h)
  {
    var b := h.buf;
    if b.tmp == 0 then Step(h.(buf := b.(tmp := 1)), [SetPeriod(TIM_RST), Drive(false)])
    else if b.tmp == 1 then Step(h.(buf := b.(tmp := 2)), [SetPeriod(TIM_RST_DET), Drive(true)])
    else if line then
      var s := Stop(h);
      Step(s.h.(error := Reset), s.io)
    else Step(h.(buf := b.(tmp := 0), state := RomCmd), [SetPeriod(TIM_RST)])
  }

  /** The state `ow_state_rom_cmd` enters after the ROM command byte. */
  function Dispatch(romCmd: bv8): (r: State)
    ensures r == RomId <==> romCmd == CMD_MATCH_ROM
    ensures r == ReadRomId <==> romCmd == CMD_READ_ROM
    ensures r == UpdateRomId <==> romCmd == CMD_SEARCH_ROM
    ensures r == UpdateAlarmId <==> romCmd == CMD_SEARCH_ALARM
    ensures r == FnCmd <==> romCmd !in {CMD_MATCH_ROM, CMD_READ_ROM, CMD_SEARCH_ROM, CMD_SEARCH_ALARM}
  {
    if romCmd == CMD_MATCH_ROM then RomId
    else if romCmd == CMD_READ_ROM then ReadRomId
    else if romCmd == CMD_SEARCH_ROM then UpdateRomId
    else if romCmd == CMD_SEARCH_ALARM then UpdateAlarmId
    else FnCmd
  }

  /** `ow_state_rom_cmd`: one half slot of the ROM command byte, least
      significant bit first; after bit 7 the ROM command picks the next state. */
  function RomCmdTick(h: Handle): (r: Step)
    requires Valid(h) && h.state == RomCmd
    ensures Valid(r.h)
  {
    var b := h.buf;
    var one := Bit(b.romCmd, b.bitI);
    if b.tmp == 0 then Step(h.(buf := b.(tmp := 1)), [SetPeriod(WriteLowPeriod(one)), Drive(false)])
    else if b.bitI + 1 == 8 then Step(h.(buf := b.(tmp := 0, bitI := 0), state := Dispatch(b.romCmd)), ReleaseIo(one))
    else Step(h.(buf := b.(tmp := 0, bitI := b.bitI + 1)), ReleaseIo(one))
  }

  /** `ow_state_rom_id`: sends the selected table entry, then the function
      command. */
  function RomIdTick(h: Handle): (r: Step)
    requires Valid(h) && h.state == RomId
    ensures Valid(r.h)
  {
    var b := h.buf;
    var one := Bit(h.romIds[b.romId][b.byteI], b.bitI);
    if b.tmp == 0 then Step(h.(buf := b.(tmp := 1)), [SetPeriod(WriteLowPeriod(one)), Drive(false)])
    else if b.bitI + 1 < 8 then Step(h.(buf := b.(tmp := 0, bitI := b.bitI + 1)), ReleaseIo(one))
    else if b.byteI + 1 == b.wLen then Step(h.(buf := b.(tmp := 0, bitI := 0, byteI := 0), state := FnCmd), ReleaseIo(one))
    else Step(h.(buf := b.(tmp := 0, bitI := 0, byteI := b.byteI + 1)), ReleaseIo(one))
  }

  /** The actions of the first two thirds of a read slot. */
  const ReadLowIo: seq<Effect> := [SetPeriod(TIM_READ_LOW), Drive(false)]
  const ReadReleaseIo: seq<Effect> := [SetPeriod(TIM_READ_SAMPLE), Drive(true)]

  /** `ow_state_read_rom_id`: reads 8 bytes into entry 0 of the table and
      goes idle; there is no CRC check and `rom_max` is left as it is. */
  function ReadRomIdTick(h: Handle, line: bool, readRest: nat): (r: Step)
    requires Valid(h) && h.state == ReadRomId
    ensures Valid(r.h)
  {
    var b := h.buf;
    if b.tmp == 0 then Step(h.(buf := b.(tmp := 1)), ReadLowIo)
    else if b.tmp == 1 then Step(h.(buf := b.(tmp := 2)), ReadReleaseIo)
    else
      var ids := if line then h.romIds[0 := h.romIds[0][b.byteI := SetBit(h.romIds[0][b.byteI], b.bitI)]] else h.romIds;
      var h1 := h.(romIds := ids);
      var io := [SetPeriod(readRest)];
      if b.bitI + 1 < 8 then Step(h1.(buf := b.(tmp := 0, bitI := b.bitI + 1)), io)
      else if b.byteI + 1 == 8 then Step(h1.(buf := b.(tmp := 0, bitI := 0, byteI := 8), state := Idle), io)
      else Step(h1.(buf := b.(tmp := 0, bitI := 0, byteI := b.byteI + 1)), io)
  }

  /** `ow_state_fn_cmd`: sends the function command, then reads when a
      response is expected, else writes when there is a payload, else idles. */
  function FnCmdTick(h: Handle): (r: Step)
    requires Valid(h) && h.state == FnCmd
    ensures Valid(r.h)
  {
    var b := h.buf;
    var one := Bit(b.fnCmd, b.bitI);
    if b.tmp == 0 then Step(h.(buf := b.(tmp := 1)), [SetPeriod(WriteLowPeriod(one)), Drive(false)])
    else if b.bitI + 1 < 8 then Step(h.(buf := b.(tmp := 0, bitI := b.bitI + 1)), ReleaseIo(one))
    else
      var next := if b.rLen > 0 then DataR else if b.wLen > 0 then DataW else Idle;
      Step(h.(buf := b.(tmp := 0, bitI := 0), state := next), ReleaseIo(one))
  }

  /** `ow_state_data_w`: sends `data[..wLen]`, then idles. */
  function DataWTick(h: Handle): (r: Step)
    requires Valid(h) && h.state == DataW
    ensures Valid(r.h)
  {
    var b := h.buf;
    var one := Bit(b.data[b.byteI], b.bitI);
    if b.tmp == 0 then Step(h.(buf := b.(tmp := 1)), [SetPeriod(WriteLowPeriod(one)), Drive(false)])
    else if b.bitI + 1 < 8 then Step(h.(buf := b.(tmp := 0, bitI := b.bitI + 1)), ReleaseIo(one))
    else if b.byteI + 1 == b.wLen then Step(h.(buf := b.(tmp := 0, bitI := 0, byteI := b.wLen), state := Idle), ReleaseIo(one))
    else Step(h.(buf := b.(tmp := 0, bitI := 0, byteI := b.byteI + 1)), ReleaseIo(one))
  }

  /** `ow_state_data_r`: reads `rLen` bytes into `data`, then idles. The
      last third releases the line again before sampling. */
  function DataRTick(h: Handle, line: bool, readRest: nat): (r: Step)
    requires Valid(h) && h.state == DataR
    ensures Valid(r.h)
  {
    var b := h.buf;
    if b.tmp == 0 then Step(h.(buf := b.(tmp := 1)), ReadLowIo)
    else if b.tmp == 1 then Step(h.(buf := b.(tmp := 2)), ReadReleaseIo)
    else
      var data := if line then b.data[b.byteI := SetBit(b.data[b.byteI], b.bitI)] else b.data;
      var io := [SetPeriod(readRest), Drive(true)];
      if b.bitI + 1 < 8 then Step(h.(buf := b.(data := data, tmp := 0, bitI := b.bitI + 1)), io)
      else if b.byteI + 1 == b.rLen then Step(h.(buf := b.(data := data, tmp := 0, bitI := 0, byteI := b.rLen), state := Idle), io)
      else Step(h.(buf := b.(data := data, tmp := 0, bitI := 0, byteI := b.byteI + 1)), io)
  }

  /** `ow_callback`: dispatch on the state. The two discovery states have
      empty bodies, and an idle handle is stopped. */
  function Callback(h: Handle, line: bool, readRest: nat): (r: Step)
    requires Valid(h)
    ensures Valid(r.h)
    ensures r.h.romMax == h.romMax && r.h.buf.romCmd == h.buf.romCmd
    ensures h.state != ReadRomId ==> r.h.romIds == h.romIds
    ensures h.state in {UpdateRomId, UpdateAlarmId} ==> r == Step(h, [])
    ensures h.state == Idle ==> r == Step(h, StopIo)
    ensures r.h.state == Rst ==> h.state == Rst
    ensures r.h.error != h.error ==> h.state == Rst && r.h.error == Reset && r.h.state == Idle
  {
    match h.state
    case Rst => RstTick(h, line)
    case RomCmd => RomCmdTick(h)
    case RomId => RomIdTick(h)
    case ReadRomId => ReadRomIdTick(h, line, readRest)
    case FnCmd => FnCmdTick(h)
    case UpdateRomId => Step(h, [])
    case UpdateAlarmId => Step(h, [])
    case DataW => DataWTick(h)
    case DataR => DataRTick(h, line, readRest)
    case Idle => Stop(h)
  }

  /** A sequence of ticks, one line sample each. */
  function Run(h: Handle, samples: seq<bool>, readRest: nat): (r: Step)
    requires Valid(h)
    ensures Valid(r.h)
    decreases |samples|
  {
    if |samples| == 0 then Step(h, [])
    else
      var s := Callback(h, samples[0], readRest);
      var t := Run(s.h, samples[1..], readRest);
      Step(t.h, s.io + t.io)
  }
}
