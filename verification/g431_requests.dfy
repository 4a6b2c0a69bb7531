/** The request functions of the G431 revision. Each one runs `ow_start`
    first and validates its arguments afterwards, so a bad argument is
    reported as `Param` or `MissRom` only on an idle, free bus, and the
    refusal stops the transaction that was just started. */
module G431Requests {
  import opened OwConfig
  import opened Wire
  import opened G431Handle

  /** A request that passed `ow_start` and its own checks: the reset state
      with a cleared buffer carrying `b`'s commands and lengths, the timer
      armed, the id table as `ids` says. */
  predicate Launched(h: Handle, r: Step, b: Buf, romMax: u8, ids: seq<seq<bv8>>)
  {
    && r.h == Handle(b, Rst, Ok, romMax, ids)
    && r.io == StartIo
  }

  /** A request that `ow_start` refused: the running transaction (if any) is
      idled by `ow_stop`, its buffer kept. */
  predicate Refused(h: Handle, r: Step)
  {
    && r.h == h.(state := Idle, error := r.h.error)
    && r.io == StopIo
  }

  /** A request refused after `ow_start` succeeded: the buffer is already
      cleared and the timer was started and stopped again. */
  predicate Rejected(h: Handle, r: Step, e: Err)
  {
    && r.h == h.(buf := ZeroBuf(), state := Idle, error := e)
    && r.io == StartIo + StopIo
  }

  /** The common prologue: `ow_start`, and `ow_stop` when it refuses. */
  function Begin(h: Handle, line: bool): (r: (bool, Step))
    ensures r.0 <==> h.state == Idle && line
    ensures r.0 ==> r.1 == Step(h.(buf := ZeroBuf(), state := Rst, error := Ok), StartIo)
    ensures !r.0 ==> Refused(h, r.1) && r.1.h.error == (if h.state != Idle then Busy else Bus)
  {
    var (e, s) := Start(h, line);
    if e != Ok then
      var t := Stop(s.h);
      (false, Step(t.h.(error := e), s.io + t.io))
    else (true, Step(s.h.(error := Ok), s.io))
  }

  /** Refuses a started request with `e`. */
  function Reject(s: Step, e: Err): Step
  {
    var t := Stop(s.h);
    Step(t.h.(error := e), s.io + t.io)
  }

  /** `memcpy(handle->buf.data, data, len)`. */
  function CopyIn(b: Buf, payload: seq<bv8>, len: u16): (r: Buf)
    requires len <= |b.data| && len <= |payload|
    ensures |r.data| == |b.data|
    ensures forall k :: 0 <= k < len ==> r.data[k] == payload[k]
    ensures forall k :: len <= k < |b.data| ==> r.data[k] == b.data[k]
    ensures r.(data := b.data) == b
  {
    b.(data := payload[..len] + b.data[len..])
  }

  /** `ow_write`: SKIP ROM, `fnCmd`, then `data[..len]`; `None` is a null
      pointer. */
  function Write(h: Handle, line: bool, fnCmd: bv8, data: Option<seq<bv8>>, len: u16): (r: Step)
    requires data.Some? && len <= MAX_DATA_LEN ==> len <= |data.value|
    ensures r.h.error == Busy <==> h.state != Idle
    ensures r.h.error == Bus <==> h.state == Idle && !line
    ensures r.h.error == Param <==> h.state == Idle && line && (len > MAX_DATA_LEN || (data.None? && len > 0))
    ensures r.h.error in {Ok, Busy, Bus, Param}
    ensures r.h.error in {Busy, Bus} ==> Refused(h, r)
    ensures r.h.error == Param ==> Rejected(h, r, Param)
    ensures r.h.error == Ok ==>
      var payload := if data.Some? then data.value[..len] else [];
      Launched(h, r, ZeroBuf().(data := payload + Zeros(MAX_DATA_LEN - len), wLen := len, romCmd := CMD_SKIP_ROM, fnCmd := fnCmd), h.romMax, h.romIds)
  {
    var (started, s) := Begin(h, line);
    if !started then s
    else if len > MAX_DATA_LEN then Reject(s, Param)
    else
      var b := if data.Some? && len > 0 then CopyIn(s.h.buf, data.value, len) else s.h.buf;
      if data.None? && len > 0 then Reject(s, Param)
      else
        assert data.Some? ==> b.data == data.value[..len] + Zeros(MAX_DATA_LEN - len);
        Step(s.h.(buf := b.(wLen := len, romCmd := CMD_SKIP_ROM, fnCmd := fnCmd)), s.io)
  }

  /** `ow_read`: SKIP ROM, `fnCmd`, then `len` response bytes. */
  function Read(h: Handle, line: bool, fnCmd: bv8, len: u16): (r: Step)
    ensures r.h.error == Busy <==> h.state != Idle
    ensures r.h.error == Bus <==> h.state == Idle && !line
    ensures r.h.error == Param <==> h.state == Idle && line && len > MAX_DATA_LEN
    ensures r.h.error in {Ok, Busy, Bus, Param}
    ensures r.h.error in {Busy, Bus} ==> Refused(h, r)
    ensures r.h.error == Param ==> Rejected(h, r, Param)
    ensures r.h.error == Ok ==>
      Launched(h, r, ZeroBuf().(rLen := len, romCmd := CMD_SKIP_ROM, fnCmd := fnCmd), h.romMax, h.romIds)
  {
    var (started, s) := Begin(h, line);
    if !started then s
    else if len > MAX_DATA_LEN then Reject(s, Param)
    else Step(s.h.(buf := s.h.buf.(rLen := len, romCmd := CMD_SKIP_ROM, fnCmd := fnCmd)), s.io)
  }

  /** `ow_write_by_id`: checks the index against `rom_max` and records it,
      but still addresses the bus with SKIP ROM, so every device receives
      the command. */
  function WriteById(h: Handle, line: bool, rom: u8, fnCmd: bv8, data: Option<seq<bv8>>, len: u16): (r: Step)
    requires data.Some? && len <= MAX_DATA_LEN ==> len <= |data.value|
    ensures r.h.error == Busy <==> h.state != Idle
    ensures r.h.error == Bus <==> h.state == Idle && !line
    ensures r.h.error == MissRom <==> h.state == Idle && line && len <= MAX_DATA_LEN && rom > h.romMax
    ensures r.h.error == Param <==>
      h.state == Idle && line && (len > MAX_DATA_LEN || (rom <= h.romMax && data.None? && len > 0))
    ensures r.h.error in {Ok, Busy, Bus, Param, MissRom}
    ensures r.h.error in {Busy, Bus} ==> Refused(h, r)
    ensures r.h.error in {Param, MissRom} ==> Rejected(h, r, r.h.error)
    ensures r.h.error == Ok ==>
      var payload := if data.Some? then data.value[..len] else [];
      Launched(h, r, ZeroBuf().(data := payload + Zeros(MAX_DATA_LEN - len), romId := rom, wLen := len, romCmd := CMD_SKIP_ROM, fnCmd := fnCmd), h.romMax, h.romIds)
  {
    var (started, s) := Begin(h, line);
    if !started then s
    else if len > MAX_DATA_LEN then Reject(s, Param)
    else if rom > h.romMax then Reject(s, MissRom)
    else if data.None? && len > 0 then Reject(s, Param)
    else
      var b := if data.Some? && len > 0 then CopyIn(s.h.buf, data.value, len) else s.h.buf;
      assert data.Some? ==> b.data == data.value[..len] + Zeros(MAX_DATA_LEN - len);
      Step(s.h.(buf := b.(romId := rom, wLen := len, romCmd := CMD_SKIP_ROM, fnCmd := fnCmd)), s.io)
  }

  /** `ow_read_by_id`: checks the index against `rom_max` but neither
      records it nor addresses the device: SKIP ROM as in `ow_read`. */
  function ReadById(h: Handle, line: bool, rom: u8, fnCmd: bv8, len: u16): (r: Step)
    ensures r.h.error == Busy <==> h.state != Idle
    ensures r.h.error == Bus <==> h.state == Idle && !line
    ensures r.h.error == Param <==> h.state == Idle && line && len > MAX_DATA_LEN
    ensures r.h.error == MissRom <==> h.state == Idle && line && len <= MAX_DATA_LEN && rom > h.romMax
    ensures r.h.error in {Ok, Busy, Bus, Param, MissRom}
    ensures r.h.error in {Busy, Bus} ==> Refused(h, r)
    ensures r.h.error in {Param, MissRom} ==> Rejected(h, r, r.h.error)
    ensures r.h.error == Ok ==>
      Launched(h, r, ZeroBuf().(rLen := len, romCmd := CMD_SKIP_ROM, fnCmd := fnCmd), h.romMax, h.romIds)
  {
    var (started, s) := Begin(h, line);
    if !started then s
    else if len > MAX_DATA_LEN then Reject(s, Param)
    else if rom > h.romMax then Reject(s, MissRom)
    else Step(s.h.(buf := s.h.buf.(rLen := len, romCmd := CMD_SKIP_ROM, fnCmd := fnCmd)), s.io)
  }

  /** `ow_update_all_id`: forgets every id (and `rom_max`) and starts a
      SEARCH ROM discovery. */
  function UpdateAllId(h: Handle, line: bool): (r: Step)
    ensures r.h.error == Busy <==> h.state != Idle
    ensures r.h.error == Bus <==> h.state == Idle && !line
    ensures r.h.error in {Ok, Busy, Bus}
    ensures r.h.error != Ok ==> Refused(h, r)
    ensures r.h.error == Ok ==> Launched(h, r, ZeroBuf().(romCmd := CMD_SEARCH_ROM), 0, ZeroIds())
  {
    var (started, s) := Begin(h, line);
    if !started then s
    else Step(s.h.(romMax := 0, romIds := ZeroIds(), buf := s.h.buf.(romCmd := CMD_SEARCH_ROM)), s.io)
  }

  /** `ow_read_id`: forgets every id and reads the single device's id with
      READ ROM; `rom_max` is left as it was. */
  function ReadId(h: Handle, line: bool): (r: Step)
    ensures r.h.error == Busy <==> h.state != Idle
    ensures r.h.error == Bus <==> h.state == Idle && !line
    ensures r.h.error in {Ok, Busy, Bus}
    ensures r.h.error != Ok ==> Refused(h, r)
    ensures r.h.error == Ok ==> Launched(h, r, ZeroBuf().(romCmd := CMD_READ_ROM), h.romMax, ZeroIds())
  {
    var (started, s) := Begin(h, line);
    if !started then s
    else Step(s.h.(romIds := ZeroIds(), buf := s.h.buf.(romCmd := CMD_READ_ROM)), s.io)
  }

  /** `ow_resp_of_read`: the response length and, when a destination is
      given, the first `rLen` bytes of the buffer. */
  function RespOfRead(h: Handle): (r: (u16, seq<bv8>))
    requires Valid(h)
    ensures r.0 == h.buf.rLen && |r.1| == r.0
    ensures forall k :: 0 <= k < r.0 ==> r.1[k] == h.buf.data[k]
  {
    (h.buf.rLen, h.buf.data[..h.buf.rLen])
  }
}
