/** Properties of the current revision's machines over one or more ticks. */
module OwProps {
  import opened OwConfig
  import opened Wire
  import opened OwHandle
  import opened OwXfer
  import opened OwSearch
  import opened Ow
  import Crc8

  /** Reset and presence, common to transfers and discoveries: pull low for
      the reset time, release for the detect window, then sample. A high
      sample stops with `Reset`; a low one goes on to phase 3. */
  lemma ResetAndPresence(h: Handle, l0: bool, l1: bool, l2: bool)
    requires Valid(h) && h.state in {Xfer, Search} && h.buf.bitPh == 0
    ensures var t0 := Callback(h, l0);
            var t1 := Callback(t0.h, l1);
            var t2 := Callback(t1.h, l2);
            && t0.io == [SetPeriod(TIM_RST), Drive(false)]
            && t1.io == [SetPeriod(TIM_RST_DET), Drive(true)]
            && (l2 ==> t2.h.state == Idle && t2.h.error == Reset && t2.io == [TimerStop, Drive(true)])
            && (!l2 ==> t2.h.state == h.state && t2.h.buf.bitPh == 3 && t2.io == [SetPeriod(TIM_RST)])
  {
  }

  /** One write slot of a transfer: low then released, the two periods add
      up to a full slot, and the low part is the short one exactly for a 1. */
  lemma WriteSlot(h: Handle, l1: bool, l2: bool)
    requires Valid(h) && h.state == Xfer && h.buf.bitPh == 3
    ensures var one := Bit(h.buf.data[h.buf.byteIdx], h.buf.bitIdx);
            var t1 := Callback(h, l1);
            var t2 := Callback(t1.h, l2);
            && t1.io + t2.io == SlotIo(one)
            && t1.io[0].ticks + t2.io[0].ticks == TIM_WRITE_LOW + TIM_WRITE_HIGH
            && (t1.io[0].ticks == TIM_WRITE_LOW <==> one)
  {
  }

  /** After the last bit of a byte with more bytes to write, the phase stays
      at 4: the next tick only releases the line for bit 0 of the next byte,
      so that bit gets no low pulse. */
  lemma NextByteSkipsLowPulse(h: Handle, l1: bool, l2: bool)
    requires Valid(h) && h.state == Xfer && h.buf.bitPh == 4
    requires h.buf.bitIdx == 7 && h.buf.byteIdx + 1 < h.buf.writeLen
    ensures var t1 := Callback(h, l1);
            var t2 := Callback(t1.h, l2);
            && t1.h.buf.bitPh == 4 && t1.h.buf.bitIdx == 0 && t1.h.buf.byteIdx == h.buf.byteIdx + 1
            && t2.io == [SetPeriod(WriteHighPeriod(Bit(h.buf.data[h.buf.byteIdx + 1], 0))), Drive(true)]
            && t2.h.buf.bitPh == 3 && t2.h.buf.bitIdx == 1
  {
  }

  /** The end of the write region: into the read phases when a response is
      expected, otherwise done. */
  lemma WriteRegionEnd(h: Handle, line: bool)
    requires Valid(h) && h.state == Xfer && h.buf.bitPh == 4
    requires h.buf.bitIdx == 7 && h.buf.byteIdx + 1 == h.buf.writeLen
    ensures var r := Callback(h, line);
            && (h.buf.readLen > 0 ==> r.h.state == Xfer && r.h.buf.bitPh == 5 && r.h.buf.byteIdx == 0 && r.h.buf.bitIdx == 0)
            && (h.buf.readLen == 0 ==> r.h.state == Done)
  {
  }

  /** A read sample stores the line level as bit `bitIdx` of response byte
      `byteIdx` (at `data[writeLen + byteIdx]`) and changes nothing else in
      the buffer. */
  lemma ReadSampleStoresBit(h: Handle, line: bool)
    requires Valid(h) && h.state == Xfer && h.buf.bitPh == 7
    ensures var r := Callback(h, line);
            var at := h.buf.writeLen + h.buf.byteIdx;
            && Bit(r.h.buf.data[at], h.buf.bitIdx) == line
            && (forall j :: 0 <= j < 8 && j != h.buf.bitIdx ==> Bit(r.h.buf.data[at], j) == Bit(h.buf.data[at], j))
            && (forall k :: 0 <= k < BUF_LEN && k != at ==> r.h.buf.data[k] == h.buf.data[k])
  {
  }

  /** The last read slot finishes the transfer, and the tick after that
      stops the bus keeping the response and the error code. */
  lemma ReadCompletes(h: Handle, l1: bool, l2: bool)
    requires Valid(h) && h.state == Xfer && h.buf.bitPh == 7
    requires h.buf.bitIdx == 7 && h.buf.byteIdx + 1 == h.buf.readLen
    ensures var t1 := Callback(h, l1);
            var t2 := Callback(t1.h, l2);
            && t1.h.state == Done
            && t2.h == t1.h.(state := Idle)
            && t2.h.error == h.error
            && t2.io == [TimerStop, Drive(true)]
  {
  }

  /** Ticks a transfer has performed, counted along the phase sequence. */
  function XferProgress(b: Buf): nat
  {
    if b.bitPh <= 2 then b.bitPh
    else if b.bitPh <= 4 then 3 + 16 * b.byteIdx + 2 * b.bitIdx + (b.bitPh - 3)
    else 3 + 16 * b.writeLen + 24 * b.byteIdx + 3 * b.bitIdx + (b.bitPh - 5)
  }

  /** An upper bound on the ticks of a whole transfer. */
  function XferBound(b: Buf): nat
  {
    3 + 16 * b.writeLen + 24 * b.readLen
  }

  /** Every transfer tick either ends the transfer or makes progress toward
      a bound fixed by the frame and response lengths. */
  lemma XferTickProgress(h: Handle, line: bool)
    requires Valid(h) && h.state == Xfer
    ensures XferProgress(h.buf) < XferBound(h.buf)
    ensures var r := Callback(h, line);
            r.h.state == Xfer ==>
              && XferProgress(h.buf) < XferProgress(r.h.buf)
              && XferBound(r.h.buf) == XferBound(h.buf)
  {
    var b := h.buf;
    var r := Callback(h, line);
    if b.bitPh <= 2 {
      assert r == ResetTick(h, line);
    } else if b.bitPh == 3 {
      assert r == WriteLow(h);
    } else if b.bitPh == 4 {
      assert r == WriteRelease(h);
      ReleaseProgress(h);
    } else if b.bitPh <= 6 {
      assert r.h.buf == b.(bitPh := b.bitPh + 1);
    } else {
      assert r == ReadSample(h, line);
      SampleProgress(h, line);
    }
  }

  /** Phase 4 moves the write cursor forward. */
  lemma ReleaseProgress(h: Handle)
    requires Valid(h) && h.state == Xfer && h.buf.bitPh == 4
    ensures var r := WriteRelease(h);
            r.h.state == Xfer ==>
              && XferProgress(h.buf) < XferProgress(r.h.buf)
              && XferBound(r.h.buf) == XferBound(h.buf)
  {
  }

  /** Phase 7 moves the read cursor forward. */
  lemma SampleProgress(h: Handle, line: bool)
    requires Valid(h) && h.state == Xfer && h.buf.bitPh == 7
    ensures var r := ReadSample(h, line);
            r.h.state == Xfer ==>
              && XferProgress(h.buf) < XferProgress(r.h.buf)
              && XferBound(r.h.buf) == XferBound(h.buf)
  {
  }

  /** Once out of the transfer and search machines the handle stays out. */
  lemma {:induction false} StaysFinished(h: Handle, samples: seq<bool>)
    requires Valid(h) && h.state in {Idle, Done}
    ensures Run(h, samples).h.state in {Idle, Done}
    ensures h.state == Idle ==> Run(h, samples).h == h
    decreases |samples|
  {
    if |samples| > 0 {
      StaysFinished(Callback(h, samples[0]).h, samples[1..]);
    }
  }

  /** Whatever the bus answers, a transfer leaves the transfer machine
      within `XferBound` ticks. */
  lemma {:induction false} XferTerminates(h: Handle, samples: seq<bool>)
    requires Valid(h) && h.state == Xfer
    requires |samples| >= XferBound(h.buf) - XferProgress(h.buf)
    ensures Run(h, samples).h.state in {Idle, Done}
    decreases XferBound(h.buf) - XferProgress(h.buf)
  {
    XferTickProgress(h, samples[0]);
    var s := Callback(h, samples[0]);
    if s.h.state == Xfer {
      XferTerminates(s.h, samples[1..]);
    } else {
      StaysFinished(s.h, samples[1..]);
    }
  }

  /** The read-read-write round the search performs at every bit position. */
  function RoundIo(one: bool): seq<Effect>
  {
    ReadIo + ReadIo + SlotIo(one)
  }

  /** Phase 10 encodes `Rule` in the flag byte `searchVal`: afterwards 0x01
      means "send 1"; the (1,1) pair aborts with `RomId`. */
  lemma DiscrepancyFollowsRule(h: Handle, line: bool)
    requires Valid(h) && h.state == Search && h.buf.bitPh == 10
    ensures var r := Callback(h, line);
            match Rule(h.searchVal == 0x01, line, h.searchFound, h.searchDiffIdx, h.buf.bitIdx)
            case Abort => r.h.state == Idle && r.h.error == RomId
            case Send(one, f, d) =>
              && r.h.state == Search && r.h.buf.bitPh == 11
              && (r.h.searchVal == 0x01 <==> one)
              && r.h.searchFound == f && r.h.searchDiffIdx == d
              && r.h.buf == h.buf.(bitPh := 11)
  {
  }

  /** The read slot timing: low, released, then the rest of the slot. */
  const ReadIo: seq<Effect> :=
    [SetPeriod(TIM_READ_LOW), Drive(false), SetPeriod(TIM_READ_SAMPLE), Drive(true), SetPeriod(TIM_READ_HIGH)]

  /** Two ticks at the head of a run. */
  lemma Unroll2(h: Handle, s: seq<bool>)
    requires Valid(h) && |s| >= 2
    ensures var t1 := Callback(h, s[0]);
            var t2 := Callback(t1.h, s[1]);
            var rest := Run(t2.h, s[2..]);
            Run(h, s) == Step(rest.h, t1.io + t2.io + rest.io)
  {
    var t1 := Callback(h, s[0]);
    var t2 := Callback(t1.h, s[1]);
    var rest := Run(t2.h, s[2..]);
    assert s[1..][1..] == s[2..];
    assert Run(t1.h, s[1..]) == Step(rest.h, t2.io + rest.io);
    Regroup(t1.io, t2.io, rest.io);
  }

  /** Three ticks at the head of a run. */
  lemma Unroll3(h: Handle, s: seq<bool>)
    requires Valid(h) && |s| >= 3
    ensures var t1 := Callback(h, s[0]);
            var t2 := Callback(t1.h, s[1]);
            var t3 := Callback(t2.h, s[2]);
            var rest := Run(t3.h, s[3..]);
            Run(h, s) == Step(rest.h, t1.io + t2.io + t3.io + rest.io)
  {
    var t1 := Callback(h, s[0]);
    Unroll2(t1.h, s[1..]);
    assert s[1..][2..] == s[3..];
    assert s[1..][0] == s[1] && s[1..][1] == s[2];
    var t2 := Callback(t1.h, s[1]);
    var t3 := Callback(t2.h, s[2]);
    var rest := Run(t3.h, s[3..]);
    Regroup(t1.io, t2.io + t3.io, rest.io);
    Regroup(t1.io, t2.io, t3.io);
  }

  /** Phases 5 to 7: the first read of a round records the sampled bit in
      the flag byte; the run then continues from phase 8. */
  lemma FirstRead(h: Handle, s: seq<bool>)
    requires Valid(h) && h.state == Search && h.buf.bitPh == 5 && |s| >= 3
    ensures var h1 := h.(buf := h.buf.(bitPh := 8), searchVal := if s[2] then 0x01 else 0x00);
            && Valid(h1)
            && Run(h, s) == Step(Run(h1, s[3..]).h, ReadIo + Run(h1, s[3..]).io)
  {
    Unroll3(h, s);
    var t1 := Callback(h, s[0]);
    var t2 := Callback(t1.h, s[1]);
    var t3 := Callback(t2.h, s[2]);
    assert t3.h == h.(buf := h.buf.(bitPh := 8), searchVal := if s[2] then 0x01 else 0x00);
    assert t1.io + t2.io + t3.io == ReadIo;
  }

  /** The read slot split after its release, followed by the rest of a run. */
  lemma ReadIoRegroup(tail: seq<Effect>)
    ensures ReadIo[..4] + ([SetPeriod(TIM_READ_HIGH)] + tail) == ReadIo + tail
  {
  }

  /** Phases 8 and 9: the low pulse and release of the second read. */
  lemma SecondSlot(h: Handle, s: seq<bool>)
    requires Valid(h) && h.state == Search && h.buf.bitPh == 8 && |s| >= 2
    ensures var h1 := h.(buf := h.buf.(bitPh := 10));
            && Valid(h1)
            && Run(h, s) == Step(Run(h1, s[2..]).h, ReadIo[..4] + Run(h1, s[2..]).io)
  {
    Unroll2(h, s);
    var t1 := Callback(h, s[0]);
    var t2 := Callback(t1.h, s[1]);
    assert t2.h == h.(buf := h.buf.(bitPh := 10));
    assert t1.io + t2.io == ReadIo[..4];
  }

  /** Phase 10 inside a run: `Rule` decides between stopping for good and
      continuing from phase 11. */
  lemma Decide(h: Handle, s: seq<bool>)
    requires Valid(h) && h.state == Search && h.buf.bitPh == 10 && |s| >= 1
    ensures var h2 := Callback(h, s[0]).h;
            match Rule(h.searchVal == 0x01, s[0], h.searchFound, h.searchDiffIdx, h.buf.bitIdx)
            case Abort => Run(h, s).h.state == Idle && Run(h, s).h.error == RomId
            case Send(one, f, d) =>
              && Run(h, s) == Step(Run(h2, s[1..]).h, [SetPeriod(TIM_READ_HIGH)] + Run(h2, s[1..]).io)
              && h2.state == Search && h2.buf == h.buf.(bitPh := 11)
              && (h2.searchVal == 0x01 <==> one)
              && h2.searchFound == f && h2.searchDiffIdx == d
              && h2.error == h.error
  {
    var t := Callback(h, s[0]);
    DiscrepancyFollowsRule(h, s[0]);
    if t.h.state == Idle {
      StaysFinished(t.h, s[1..]);
    }
  }

  /** Phases 8 to 10: the second read of a round picks the branch `Rule`
      gives; unless that is an abort, the run continues from phase 11. */
  lemma SecondRead(h: Handle, s: seq<bool>)
    requires Valid(h) && h.state == Search && h.buf.bitPh == 8 && |s| >= 3
    ensures var h2 := Callback(h.(buf := h.buf.(bitPh := 10)), s[2]).h;
            match Rule(h.searchVal == 0x01, s[2], h.searchFound, h.searchDiffIdx, h.buf.bitIdx)
            case Abort => Run(h, s).h.state == Idle && Run(h, s).h.error == RomId
            case Send(one, f, d) =>
              && Run(h, s) == Step(Run(h2, s[3..]).h, ReadIo + Run(h2, s[3..]).io)
              && h2.state == Search && h2.buf == h.buf.(bitPh := 11)
              && (h2.searchVal == 0x01 <==> one)
              && h2.searchFound == f && h2.searchDiffIdx == d
              && h2.error == h.error
  {
    SecondSlot(h, s);
    var h1 := h.(buf := h.buf.(bitPh := 10));
    assert s[2..][1..] == s[3..];
    assert s[2..][0] == s[2];
    Decide(h1, s[2..]);
    var mid := Run(h1, s[2..]);
    assert Run(h, s) == Step(mid.h, ReadIo[..4] + mid.io);
    if Callback(h1, s[2]).h.state != Idle {
      var rest := Run(Callback(h1, s[2]).h, s[3..]);
      assert mid == Step(rest.h, [SetPeriod(TIM_READ_HIGH)] + rest.io);
      ReadIoRegroup(rest.io);
    }
  }

  /** Phases 11 and 12: the chosen bit is written on the bus and into the
      candidate id; the cursor moves to the next bit or the scan ends. */
  lemma WriteChoice(h: Handle, s: seq<bool>)
    requires Valid(h) && h.state == Search && h.buf.bitPh == 11 && |s| == 2
    ensures var r := Run(h, s);
            var one := h.searchVal == 0x01;
            && r.io == SlotIo(one)
            && r.h.error == h.error
            && (h.buf.bitIdx < 63 ==>
                  && r.h.state == Search && r.h.buf.bitPh == 5 && r.h.buf.bitIdx == h.buf.bitIdx + 1
                  && r.h.searchFound == h.searchFound && r.h.searchDiffIdx == h.searchDiffIdx
                  && CandBit(r.h.buf.data, h.buf.bitIdx) == one
                  && (forall q :: 0 <= q < 64 && q != h.buf.bitIdx ==>
                        CandBit(r.h.buf.data, q) == CandBit(h.buf.data, q)))
            && (h.buf.bitIdx == 63 ==> r.h.buf.bitPh == 0 && r.h.buf.bitIdx == 0)
  {
    var t1 := Callback(h, s[0]);
    var t2 := Callback(t1.h, s[1]);
    SetCandBit(h.buf.data, h.buf.bitIdx);
    assert s[1..][1..] == [];
    assert Run(t1.h, s[1..]) == Step(t2.h, t2.io + []);
  }

  /** Eight ticks from phase 5 perform one search round: read the bit (third
      sample), read its complement (sixth sample), then write the branch
      `Rule` picks. The chosen bit lands in the candidate id, the other
      candidate bits stay as they were, and the cursor moves on (or, after
      bit 63, the scan ends). A (1,1) pair stops the search with `RomId`. */
  lemma SearchRound(h: Handle, s: seq<bool>)
    requires Valid(h) && h.state == Search && h.buf.bitPh == 5 && |s| == 8
    ensures var r := Run(h, s);
            match Rule(s[2], s[5], h.searchFound, h.searchDiffIdx, h.buf.bitIdx)
            case Abort => r.h.state == Idle && r.h.error == RomId
            case Send(one, f, d) =>
              && r.io == RoundIo(one)
              && r.h.error == h.error
              && (h.buf.bitIdx < 63 ==>
                    && r.h.state == Search && r.h.buf.bitPh == 5 && r.h.buf.bitIdx == h.buf.bitIdx + 1
                    && r.h.searchFound == f && r.h.searchDiffIdx == d
                    && CandBit(r.h.buf.data, h.buf.bitIdx) == one
                    && (forall q :: 0 <= q < 64 && q != h.buf.bitIdx ==>
                          CandBit(r.h.buf.data, q) == CandBit(h.buf.data, q)))
              && (h.buf.bitIdx == 63 ==> r.h.buf.bitPh == 0 && r.h.buf.bitIdx == 0)
  {
    FirstRead(h, s);
    var h1 := h.(buf := h.buf.(bitPh := 8), searchVal := if s[2] then 0x01 else 0x00);
    assert s[3..][2] == s[5];
    SecondRead(h1, s[3..]);
    match Rule(s[2], s[5], h.searchFound, h.searchDiffIdx, h.buf.bitIdx)
    case Abort =>
    case Send(one, f, d) =>
      var h2 := Callback(h1.(buf := h1.buf.(bitPh := 10)), s[5]).h;
      assert s[3..][3..] == s[6..];
      WriteChoice(h2, s[6..]);
      Regroup(ReadIo, ReadIo, Run(h2, s[6..]).io);
  }

  /** The end of a scan keeps a CRC-valid candidate without looking for it
      in the table: an id already found is stored a second time. */
  lemma DuplicateKept(h: Handle, i: nat)
    requires Valid(h) && h.state == Search && h.buf.bitPh == 12 && h.buf.bitIdx == 63
    requires i < h.romIdFound && h.romId[i] == Candidate(h.buf)
    ensures var r := Callback(h, true);
            && r.h.romIdFound == h.romIdFound + 1
            && r.h.romId[i] == r.h.romId[h.romIdFound] == Candidate(h.buf)
  {
  }

  /** A kept id always passes the CRC-8 check over all eight bytes. */
  lemma TableEntriesCheck(h: Handle, i: nat)
    requires Valid(h) && i < h.romIdFound
    ensures Crc8.Crc(h.romId[i]) == 0
  {
    Crc8.RomIdCheck(h.romId[i]);
  }

  /** The length boundary: a payload of exactly `MAX_DATA_LEN` bytes is
      accepted by an idle driver on a free bus, one more is refused with
      `Len` and leaves the driver idle. */
  lemma LengthBoundary(h: Handle, fnCmd: bv8, payload: seq<bv8>)
    requires Valid(h) && h.state == Idle
    ensures Write(h, true, fnCmd, payload, MAX_DATA_LEN).h.error == Ok
    ensures Write(h, true, fnCmd, payload, MAX_DATA_LEN + 1).h.error == Len
    ensures Write(h, true, fnCmd, payload, MAX_DATA_LEN + 1).h.state == Idle
    ensures Read(h, true, fnCmd, MAX_DATA_LEN).h.error == Ok
    ensures Read(h, true, fnCmd, MAX_DATA_LEN + 1).h.error == Len
  {
  }

  /** A request issued while a transaction runs is refused with `Busy`, and
      the refusal runs `ow_stop`, which idles the running transaction while
      leaving its buffer as it was. */
  lemma BusyIdlesRunningTransfer(h: Handle, line: bool, fnCmd: bv8, len: u16)
    requires Valid(h) && h.state in {Xfer, Search} && len <= MAX_DATA_LEN
    ensures var r := Read(h, line, fnCmd, len);
            r.h.error == Busy && r.h.state == Idle && r.h.buf == h.buf
  {
  }
}
