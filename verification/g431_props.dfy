/** Properties of the G431 revision: what its requests can start, what its
    machine can reach, and how each stage drives the line. */
module G431Props {
  import opened OwConfig
  import opened Wire
  import opened G431Handle
  import opened G431Machine
  import opened G431Requests

  /** Every request leaves the handle in a reachable state, whatever state
      (valid, reachable or not) it was called in. */
  lemma RequestsReachable(h: Handle, line: bool, rom: u8, fnCmd: bv8, data: Option<seq<bv8>>, len: u16)
    requires Valid(h)
    requires data.Some? && len <= MAX_DATA_LEN ==> len <= |data.value|
    ensures Reachable(Write(h, line, fnCmd, data, len).h)
    ensures Reachable(Read(h, line, fnCmd, len).h)
    ensures Reachable(WriteById(h, line, rom, fnCmd, data, len).h)
    ensures Reachable(ReadById(h, line, rom, fnCmd, len).h)
    ensures Reachable(UpdateAllId(h, line).h)
    ensures Reachable(ReadId(h, line).h)
  {
    WriteReachable(h, line, fnCmd, data, len);
    ReadReachable(h, line, fnCmd, len);
    WriteByIdReachable(h, line, rom, fnCmd, data, len);
    ReadByIdReachable(h, line, rom, fnCmd, len);
    UpdateAllIdReachable(h, line);
    ReadIdReachable(h, line);
  }

  lemma WriteReachable(h: Handle, line: bool, fnCmd: bv8, data: Option<seq<bv8>>, len: u16)
    requires Valid(h)
    requires data.Some? && len <= MAX_DATA_LEN ==> len <= |data.value|
    ensures Reachable(Write(h, line, fnCmd, data, len).h)
  {
    RequestReachable(h, Write(h, line, fnCmd, data, len));
  }

  lemma ReadReachable(h: Handle, line: bool, fnCmd: bv8, len: u16)
    requires Valid(h)
    ensures Reachable(Read(h, line, fnCmd, len).h)
  {
    RequestReachable(h, Read(h, line, fnCmd, len));
  }

  lemma WriteByIdReachable(h: Handle, line: bool, rom: u8, fnCmd: bv8, data: Option<seq<bv8>>, len: u16)
    requires Valid(h)
    requires data.Some? && len <= MAX_DATA_LEN ==> len <= |data.value|
    ensures Reachable(WriteById(h, line, rom, fnCmd, data, len).h)
  {
    RequestReachable(h, WriteById(h, line, rom, fnCmd, data, len));
  }

  lemma ReadByIdReachable(h: Handle, line: bool, rom: u8, fnCmd: bv8, len: u16)
    requires Valid(h)
    ensures Reachable(ReadById(h, line, rom, fnCmd, len).h)
  {
    RequestReachable(h, ReadById(h, line, rom, fnCmd, len));
  }

  lemma UpdateAllIdReachable(h: Handle, line: bool)
    requires Valid(h)
    ensures Reachable(UpdateAllId(h, line).h)
  {
    RequestReachable(h, UpdateAllId(h, line));
  }

  lemma ReadIdReachable(h: Handle, line: bool)
    requires Valid(h)
    ensures Reachable(ReadId(h, line).h)
  {
    RequestReachable(h, ReadId(h, line));
  }

  lemma ZerosClear(n: nat)
    ensures ClearAfter(Zeros(n), 0, 0)
  {
    assert forall j :: 0 <= j < 8 ==> !Bit(0, j);
  }

  /** The three ways a request can end lead to reachable handles. */
  lemma RequestReachable(h: Handle, r: Step)
    requires Valid(h)
    requires || Refused(h, r)
             || Rejected(h, r, r.h.error)
             || (&& r.h.state == Rst && r.h.buf.tmp == 0 && r.h.buf.bitI == 0 && r.h.buf.byteI == 0
                 && Issued(r.h.buf.romCmd) && r.h.buf.wLen <= MAX_DATA_LEN && r.h.buf.rLen <= MAX_DATA_LEN
                 && |r.h.buf.data| == MAX_DATA_LEN && (r.h.romIds == h.romIds || r.h.romIds == ZeroIds())
                 && (r.h.buf.rLen > 0 ==> r.h.buf.data == Zeros(MAX_DATA_LEN))
                 && (r.h.buf.romCmd == CMD_READ_ROM ==> r.h.romIds == ZeroIds()))
    ensures Reachable(r.h)
  {
    ZerosClear(MAX_DATA_LEN);
    ZerosClear(8);
  }

  /** One tick keeps the handle reachable. */
  lemma TickKeepsReachable(h: Handle, line: bool, readRest: nat)
    requires Reachable(h)
    ensures Reachable(Callback(h, line, readRest).h)
  {
    match h.state
    case Rst => RstReachable(h, line);
    case RomCmd => RomCmdReachable(h);
    case ReadRomId => ReadRomIdReachable(h, line, readRest);
    case FnCmd => FnCmdReachable(h);
    case DataW => DataWReachable(h);
    case DataR => DataRReachable(h, line, readRest);
    case _ =>
  }

  lemma RstReachable(h: Handle, line: bool)
    requires Reachable(h) && h.state == Rst
    ensures Reachable(RstTick(h, line).h)
  {
  }

  lemma RomCmdReachable(h: Handle)
    requires Reachable(h) && h.state == RomCmd
    ensures Reachable(RomCmdTick(h).h)
  {
  }

  lemma ReadRomIdReachable(h: Handle, line: bool, readRest: nat)
    requires Reachable(h) && h.state == ReadRomId
    ensures Reachable(ReadRomIdTick(h, line, readRest).h)
  {
    if h.buf.tmp == 2 {
      SampleKeepsClear(h.romIds[0], h.buf.byteI, h.buf.bitI, line);
    }
  }

  lemma FnCmdReachable(h: Handle)
    requires Reachable(h) && h.state == FnCmd
    ensures Reachable(FnCmdTick(h).h)
  {
  }

  lemma DataWReachable(h: Handle)
    requires Reachable(h) && h.state == DataW
    ensures Reachable(DataWTick(h).h)
  {
  }

  lemma DataRReachable(h: Handle, line: bool, readRest: nat)
    requires Reachable(h) && h.state == DataR
    ensures Reachable(DataRTick(h, line, readRest).h)
  {
    if h.buf.tmp == 2 {
      SampleKeepsClear(h.buf.data, h.buf.byteI, h.buf.bitI, line);
    }
  }

  /** Reachability survives any run of ticks, so the MATCH ROM state (the
      only place `rom_id` of the buffer is used) and the alarm search state
      never occur. */
  lemma {:induction false} NeverMatchRom(h: Handle, s: seq<bool>, readRest: nat)
    requires Reachable(h)
    ensures Reachable(Run(h, s, readRest).h)
    ensures Run(h, s, readRest).h.state != RomId
    decreases |s|
  {
    if |s| > 0 {
      TickKeepsReachable(h, s[0], readRest);
      NeverMatchRom(Callback(h, s[0], readRest).h, s[1..], readRest);
    }
  }

  /** The discovery state has an empty body: once entered, the handle stays
      exactly as it is and the line is never touched, so a discovery never
      completes and the driver stays busy. */
  lemma {:induction false} DiscoveryStalls(h: Handle, s: seq<bool>, readRest: nat)
    requires Valid(h) && h.state == UpdateRomId
    ensures Run(h, s, readRest) == Step(h, [])
    decreases |s|
  {
    if |s| > 0 {
      DiscoveryStalls(h, s[1..], readRest);
    }
  }

  /** An idle handle stays as it is: every tick only repeats `ow_stop`. */
  lemma {:induction false} IdleStays(h: Handle, s: seq<bool>, readRest: nat)
    requires Valid(h) && h.state == Idle
    ensures Run(h, s, readRest).h == h
    ensures forall k :: 0 <= k < |Run(h, s, readRest).io| ==> Run(h, s, readRest).io[k] in StopIo
    decreases |s|
  {
    if |s| > 0 {
      IdleStays(h, s[1..], readRest);
    }
  }

  /** The reset pulse and presence window of a transaction. */
  const ResetIo: seq<Effect> := [SetPeriod(TIM_RST), Drive(false), SetPeriod(TIM_RST_DET), Drive(true)]

  /** Reset and presence: low for the reset time, released for the detect
      window, then a high third sample stops with `Reset` for good and a low
      one moves on to the ROM command, the rest of the run starting there. */
  lemma ResetAndPresence(h: Handle, s: seq<bool>, readRest: nat)
    requires Valid(h) && h.state == Rst && h.buf.tmp == 0 && |s| >= 3
    ensures var r := Run(h, s, readRest);
            && (s[2] ==>
                  var f := h.(buf := h.buf.(tmp := 2), state := Idle, error := Reset);
                  && r.h == f
                  && r.io == ResetIo + StopIo + Run(f, s[3..], readRest).io)
            && (!s[2] ==>
                  var m := h.(state := RomCmd);
                  && Valid(m)
                  && r == Step(Run(m, s[3..], readRest).h, ResetIo + [SetPeriod(TIM_RST)] + Run(m, s[3..], readRest).io))
  {
    Unroll3(h, s, readRest);
    var t1 := Callback(h, s[0], readRest);
    var t2 := Callback(t1.h, s[1], readRest);
    var t3 := Callback(t2.h, s[2], readRest);
    assert t1.io + t2.io == ResetIo;
    if s[2] {
      assert t3.h == h.(buf := h.buf.(tmp := 2), state := Idle, error := Reset);
      IdleStays(t3.h, s[3..], readRest);
    } else {
      assert t3.h == h.(state := RomCmd);
    }
  }

  /** Running two sample sequences one after the other is running their
      concatenation. */
  lemma {:induction false} RunAppend(h: Handle, a: seq<bool>, b: seq<bool>, readRest: nat)
    requires Valid(h)
    ensures var m := Run(h, a, readRest);
            Run(h, a + b, readRest) == Step(Run(m.h, b, readRest).h, m.io + Run(m.h, b, readRest).io)
    decreases |a|
  {
    if |a| == 0 {
      assert a + b == b;
    } else {
      var t := Callback(h, a[0], readRest);
      assert (a + b)[0] == a[0];
      assert (a + b)[1..] == a[1..] + b;
      RunAppend(t.h, a[1..], b, readRest);
      var m := Run(t.h, a[1..], readRest);
      var e := Run(m.h, b, readRest);
      Regroup(t.io, m.io, e.io);
    }
  }

  /** Two ticks at the head of a run. */
  lemma Unroll2(h: Handle, s: seq<bool>, readRest: nat)
    requires Valid(h) && |s| >= 2
    ensures var t1 := Callback(h, s[0], readRest);
            var t2 := Callback(t1.h, s[1], readRest);
            var rest := Run(t2.h, s[2..], readRest);
            Run(h, s, readRest) == Step(rest.h, t1.io + t2.io + rest.io)
  {
    var t1 := Callback(h, s[0], readRest);
    var t2 := Callback(t1.h, s[1], readRest);
    var rest := Run(t2.h, s[2..], readRest);
    assert s[1..][1..] == s[2..];
    assert Run(t1.h, s[1..], readRest) == Step(rest.h, t2.io + rest.io);
    Regroup(t1.io, t2.io, rest.io);
  }

  /** Three ticks at the head of a run. */
  lemma Unroll3(h: Handle, s: seq<bool>, readRest: nat)
    requires Valid(h) && |s| >= 3
    ensures var t1 := Callback(h, s[0], readRest);
            var t2 := Callback(t1.h, s[1], readRest);
            var t3 := Callback(t2.h, s[2], readRest);
            var rest := Run(t3.h, s[3..], readRest);
            Run(h, s, readRest) == Step(rest.h, t1.io + t2.io + t3.io + rest.io)
  {
    var t1 := Callback(h, s[0], readRest);
    Unroll2(t1.h, s[1..], readRest);
    assert s[1..][2..] == s[3..];
    assert s[1..][0] == s[1] && s[1..][1] == s[2];
    var t2 := Callback(t1.h, s[1], readRest);
    var t3 := Callback(t2.h, s[2], readRest);
    var rest := Run(t3.h, s[3..], readRest);
    Regroup(t1.io, t2.io + t3.io, rest.io);
    Regroup(t1.io, t2.io, t3.io);
  }

  /** The handle after the ROM command bit at `bitI`. */
  function AfterCmdBit(h: Handle): (r: Handle)
    requires Valid(h) && h.state == RomCmd
    ensures r.buf.tmp == h.buf.tmp && r.romIds == h.romIds && r.romMax == h.romMax && r.error == h.error
  {
    if h.buf.bitI < 7 then h.(buf := h.buf.(bitI := h.buf.bitI + 1))
    else h.(buf := h.buf.(bitI := 0), state := Dispatch(h.buf.romCmd))
  }

  /** Two ticks of the ROM command state send one bit as a complete write
      slot and move to the next bit, or after bit 7 to the state the command
      selects. */
  lemma RomCmdSlot(h: Handle, s: seq<bool>, readRest: nat)
    requires Valid(h) && h.state == RomCmd && h.buf.tmp == 0 && |s| >= 2
    ensures var m := AfterCmdBit(h);
            && Valid(m)
            && Run(h, s, readRest) == Step(Run(m, s[2..], readRest).h, SlotIo(Bit(h.buf.romCmd, h.buf.bitI)) + Run(m, s[2..], readRest).io)
  {
    Unroll2(h, s, readRest);
    var t1 := Callback(h, s[0], readRest);
    var t2 := Callback(t1.h, s[1], readRest);
    assert t2.h == AfterCmdBit(h);
    assert t1.io + t2.io == SlotIo(Bit(h.buf.romCmd, h.buf.bitI));
  }

  /** Ticks of the ROM command state send the rest of the command byte,
      least significant bit first, and then enter the state the command
      selects. */
  lemma {:induction false} RomCmdByte(h: Handle, s: seq<bool>, readRest: nat)
    requires Valid(h) && h.state == RomCmd && h.buf.tmp == 0
    requires |s| == 2 * (8 - h.buf.bitI)
    ensures Run(h, s, readRest) == Step(h.(buf := h.buf.(bitI := 0), state := Dispatch(h.buf.romCmd)),
                                        ByteIo(h.buf.romCmd, h.buf.bitI))
    decreases 8 - h.buf.bitI
  {
    RomCmdSlot(h, s, readRest);
    var h1 := AfterCmdBit(h);
    var slot := SlotIo(Bit(h.buf.romCmd, h.buf.bitI));
    if h.buf.bitI < 7 {
      assert h1 == h.(buf := h.buf.(bitI := h.buf.bitI + 1));
      RomCmdByte(h1, s[2..], readRest);
      assert ByteIo(h.buf.romCmd, h.buf.bitI) == slot + ByteIo(h.buf.romCmd, h.buf.bitI + 1);
    } else {
      assert s[2..] == [];
      assert ByteIo(h.buf.romCmd, 8) == [];
      assert slot + [] == slot;
    }
  }

  /** A discovery request on a free bus ends up stalled: after the reset,
      the presence pulse and the SEARCH ROM byte, the machine sits in the
      discovery state with no id found, for as long as it runs. */
  lemma DiscoveryNeverCompletes(h: Handle, s: seq<bool>, readRest: nat)
    requires Valid(h) && h.state == Idle
    requires |s| >= 19 && !s[2]
    ensures var u := UpdateAllId(h, true);
            && u.h.error == Ok
            && var r := Run(u.h, s, readRest);
               && r.h == u.h.(state := UpdateRomId)
               && r.h.romMax == 0 && r.h.romIds == ZeroIds()
               && r.io == ResetIo + [SetPeriod(TIM_RST)] + ByteIo(CMD_SEARCH_ROM, 0)
  {
    var u := UpdateAllId(h, true);
    ResetAndPresence(u.h, s, readRest);
    SearchCommandStalls(u.h.(state := RomCmd), s[3..], readRest);
  }

  /** The SEARCH ROM byte leads into the discovery state, where the run
      stops changing anything. */
  lemma SearchCommandStalls(h: Handle, s: seq<bool>, readRest: nat)
    requires Valid(h) && h.state == RomCmd && h.buf.tmp == 0 && h.buf.bitI == 0
    requires h.buf.romCmd == CMD_SEARCH_ROM && |s| >= 16
    ensures Run(h, s, readRest) == Step(h.(state := UpdateRomId), ByteIo(CMD_SEARCH_ROM, 0))
  {
    var a, c := s[..16], s[16..];
    assert s == a + c;
    RomCmdByte(h, a, readRest);
    var m := h.(state := UpdateRomId);
    var cmd := ByteIo(CMD_SEARCH_ROM, 0);
    assert Run(h, a, readRest) == Step(m, cmd);
    RunAppend(h, a, c, readRest);
    DiscoveryStalls(m, c, readRest);
    assert cmd + [] == cmd;
  }

  /** The write that completes the payload goes idle without stopping the
      timer; the tick after it performs `ow_stop`. */
  lemma WriteEndsWithoutStop(h: Handle, l1: bool, l2: bool, readRest: nat)
    requires Valid(h) && h.state == DataW && h.buf.tmp == 1
    requires h.buf.bitI == 7 && h.buf.byteI + 1 == h.buf.wLen
    ensures var t1 := Callback(h, l1, readRest);
            var t2 := Callback(t1.h, l2, readRest);
            && t1.h.state == Idle && TimerStop !in t1.io
            && t1.io == ReleaseIo(Bit(h.buf.data[h.buf.byteI], 7))
            && t2.h == t1.h && t2.io == StopIo
  {
  }

  /** After the function command, a response length takes precedence: the
      machine reads even when a payload length is also set. */
  lemma FnCmdRoutes(h: Handle, line: bool, readRest: nat)
    requires Valid(h) && h.state == FnCmd && h.buf.tmp == 1 && h.buf.bitI == 7
    ensures var r := Callback(h, line, readRest);
            && (h.buf.rLen > 0 ==> r.h.state == DataR)
            && (h.buf.rLen == 0 && h.buf.wLen > 0 ==> r.h.state == DataW)
            && (h.buf.rLen == 0 && h.buf.wLen == 0 ==> r.h.state == Idle)
            && r.h.buf.byteI == 0 && r.h.buf.bitI == 0 && r.h.buf.tmp == 0
  {
  }

  /** A response sample stores the line level as bit `bitI` of byte `byteI`
      of the buffer, which is what `ow_resp_of_read` hands out; the bytes
      around it and the other bits are kept. The slot ends with the line
      released and the rest-of-slot period. */
  lemma ResponseSample(h: Handle, line: bool, readRest: nat)
    requires Reachable(h) && h.state == DataR && h.buf.tmp == 2
    ensures var r := Callback(h, line, readRest);
            var i := h.buf.byteI;
            && r.io == [SetPeriod(readRest), Drive(true)]
            && Bit(RespOfRead(r.h).1[i], h.buf.bitI) == line
            && (forall j :: 0 <= j < 8 && j != h.buf.bitI ==> Bit(r.h.buf.data[i], j) == Bit(h.buf.data[i], j))
            && (forall k :: 0 <= k < MAX_DATA_LEN && k != i ==> r.h.buf.data[k] == h.buf.data[k])
            && r.h.buf.rLen == h.buf.rLen
  {
    SampleKeepsClear(h.buf.data, h.buf.byteI, h.buf.bitI, line);
  }

  /** The single-device id read stores each sample in entry 0 of the table
      and, after the 64th bit, idles with the error untouched: the CRC byte
      is not checked and `rom_max` is not updated. */
  lemma ReadIdUnchecked(h: Handle, line: bool, readRest: nat)
    requires Reachable(h) && h.state == ReadRomId && h.buf.tmp == 2
    ensures var r := Callback(h, line, readRest);
            && Bit(r.h.romIds[0][h.buf.byteI], h.buf.bitI) == line
            && (forall e :: 1 <= e < MAX_DEVICE ==> r.h.romIds[e] == h.romIds[e])
            && r.h.error == h.error && r.h.romMax == h.romMax
            && (h.buf.bitI == 7 && h.buf.byteI == 7 ==> r.h.state == Idle)
            && (h.buf.bitI < 7 || h.buf.byteI < 7 ==> r.h.state == ReadRomId)
  {
    SampleKeepsClear(h.romIds[0], h.buf.byteI, h.buf.bitI, line);
  }
}
