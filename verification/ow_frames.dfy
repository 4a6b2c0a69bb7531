/** Whole bytes over many ticks: the frame of a transfer and the SEARCH ROM
    command go out least significant bit first, and the read slots of a
    transfer fill the response region bit by bit in the same order. */
module OwFrames {
  import opened OwConfig
  import opened Wire
  import opened OwHandle
  import opened OwXfer
  import opened OwSearch
  import opened Ow
  import opened OwProps

  /** Splitting a run in two. */
  lemma {:induction false} RunAppend(h: Handle, a: seq<bool>, b: seq<bool>)
    requires Valid(h)
    ensures var m := Run(h, a);
            Run(h, a + b) == Step(Run(m.h, b).h, m.io + Run(m.h, b).io)
    decreases |a|
  {
    if |a| == 0 {
      assert a + b == b;
    } else {
      var t := Callback(h, a[0]);
      assert (a + b)[0] == a[0];
      assert (a + b)[1..] == a[1..] + b;
      RunAppend(t.h, a[1..], b);
      var m := Run(t.h, a[1..]);
      var e := Run(m.h, b);
      Regroup(t.io, m.io, e.io);
    }
  }

  /** Two runs back to back, the second from where the first ended. */
  lemma {:induction false} Compose(h: Handle, s: seq<bool>, n: nat, a: Step, c: Step)
    requires Valid(h) && n <= |s| && Run(h, s[..n]) == a
    requires Valid(a.h) && Run(a.h, s[n..]) == c
    ensures Run(h, s) == Step(c.h, a.io + c.io)
  {
    SplitAt(s, n);
    RunAppend(h, s[..n], s[n..]);
  }

  lemma {:induction false} SplitAt(s: seq<bool>, n: nat)
    requires n <= |s|
    ensures s[..n] + s[n..] == s
  {
  }

  /** `n` read slots. */
  function ReadSlots(n: nat): seq<Effect>
  {
    if n == 0 then [] else ReadIo + ReadSlots(n - 1)
  }

  lemma {:induction false} ReadSlotsCons(r: Step, h: Handle, n: nat)
    requires n > 0 && r == Step(h, ReadIo + ReadSlots(n - 1))
    ensures r == Step(h, ReadSlots(n))
  {
  }

  lemma {:induction false} ReadSlotsAppend(a: nat, b: nat)
    ensures ReadSlots(a + b) == ReadSlots(a) + ReadSlots(b)
  {
    if a > 0 {
      ReadSlotsAppend(a - 1, b);
      Regroup(ReadIo, ReadSlots(a - 1), ReadSlots(b));
    }
  }

  /** Nothing more to do. */
  lemma {:induction false} Finished(a: seq<Effect>)
    ensures a + [] == a
  {
  }

  // ---------------------------------------------------------------------
  // The write region of a transfer

  /** The cursor after the last bit of a byte: on to bit 0 of the next byte
      with the phase left at 4, or out of the write region. */
  function NextByte(h: Handle): (r: Handle)
    requires Valid(h) && h.state == Xfer && h.buf.bitPh in {3, 4}
    ensures Valid(r)
  {
    var b := h.buf;
    if b.byteIdx + 1 < b.writeLen then h.(buf := b.(bitIdx := 0, byteIdx := b.byteIdx + 1, bitPh := 4))
    else WriteDone(h)
  }

  /** The cursor after one complete write slot. */
  function AfterWriteBit(h: Handle): (r: Handle)
    requires Valid(h) && h.state == Xfer && h.buf.bitPh == 3
    ensures Valid(r)
  {
    if h.buf.bitIdx < 7 then h.(buf := h.buf.(bitIdx := h.buf.bitIdx + 1)) else NextByte(h)
  }

  /** The actions for a byte that follows another: bit 0 only gets the
      release of its slot, bits 1 to 7 get complete slots. */
  function SkipIo(d: bv8): seq<Effect>
  {
    [SetPeriod(WriteHighPeriod(Bit(d, 0))), Drive(true)] + ByteIo(d, 1)
  }

  /** The actions for the bytes `from..to` of the frame, each following
      another byte. */
  function TailIo(data: seq<bv8>, from: nat, to: nat): seq<Effect>
    requires from <= to <= |data|
    decreases |data| - from
  {
    if from == to then [] else SkipIo(data[from]) + TailIo(data, from + 1, to)
  }

  lemma {:induction false} TailIoStep(data: seq<bv8>, from: nat, to: nat)
    requires from < to <= |data|
    ensures TailIo(data, from, to) == SkipIo(data[from]) + TailIo(data, from + 1, to)
    ensures from + 1 == to ==> TailIo(data, from, to) == SkipIo(data[from])
  {
  }

  lemma {:induction false} ByteIoStep(d: bv8, i: nat)
    requires i < 8
    ensures ByteIo(d, i) == SlotIo(Bit(d, i)) + ByteIo(d, i + 1)
    ensures i == 7 ==> ByteIo(d, i) == SlotIo(Bit(d, i))
  {
  }

  /** Phases 3 and 4: one complete write slot for the bit under the cursor. */
  lemma {:induction false} WriteSlotRun(h: Handle, s: seq<bool>)
    requires Valid(h) && h.state == Xfer && h.buf.bitPh == 3 && |s| == 2
    ensures Run(h, s) == Step(AfterWriteBit(h), SlotIo(CurBit(h.buf)))
  {
    Unroll2(h, s);
    var t1 := Callback(h, s[0]);
    var t2 := Callback(t1.h, s[1]);
    assert t1.h == h.(buf := h.buf.(bitPh := 4));
    assert t2.h == AfterWriteBit(h);
    assert t1.io + t2.io == SlotIo(CurBit(h.buf));
    Finished(SlotIo(CurBit(h.buf)));
  }

  /** One write slot followed by a run that ends at `e`. */
  lemma {:induction false} WriteBitsStep(h: Handle, s: seq<bool>, e: Handle, rest: seq<Effect>)
    requires Valid(h) && h.state == Xfer && h.buf.bitPh == 3 && 2 <= |s|
    requires Run(AfterWriteBit(h), s[2..]) == Step(e, rest)
    ensures Run(h, s) == Step(e, SlotIo(CurBit(h.buf)) + rest)
  {
    WriteSlotRun(h, s[..2]);
    Compose(h, s, 2, Step(AfterWriteBit(h), SlotIo(CurBit(h.buf))), Step(e, rest));
  }

  /** A write slot followed by the rest of the byte is the byte from the
      slot's bit on. */
  lemma {:induction false} WriteBitsClose(r: Step, h: Handle)
    requires Valid(h) && h.state == Xfer && h.buf.bitPh == 3 && h.buf.bitIdx < 7
    requires var m := AfterWriteBit(h);
             r == Step(NextByte(m), SlotIo(CurBit(h.buf)) + ByteIo(m.buf.data[m.buf.byteIdx], m.buf.bitIdx))
    ensures r == Step(NextByte(h), ByteIo(h.buf.data[h.buf.byteIdx], h.buf.bitIdx))
  {
    AfterWriteBitNext(h);
    ByteIoStep(h.buf.data[h.buf.byteIdx], h.buf.bitIdx);
  }

  /** A write slot inside a byte moves the bit cursor alone. */
  lemma {:induction false} AfterWriteBitNext(h: Handle)
    requires Valid(h) && h.state == Xfer && h.buf.bitPh == 3 && h.buf.bitIdx < 7
    ensures var m := AfterWriteBit(h);
            && m.state == Xfer && m.buf.bitPh == 3 && m.buf.bitIdx == h.buf.bitIdx + 1
            && m.buf.data[m.buf.byteIdx] == h.buf.data[h.buf.byteIdx]
            && NextByte(m) == NextByte(h)
  {
  }

  /** From phase 3, the rest of the byte under the cursor goes out least
      significant bit first, and the cursor moves past the byte. */
  lemma {:induction false} WriteBits(h: Handle, s: seq<bool>)
    requires Valid(h) && h.state == Xfer && h.buf.bitPh == 3
    requires |s| == 2 * (8 - h.buf.bitIdx)
    ensures Run(h, s) == Step(NextByte(h), ByteIo(h.buf.data[h.buf.byteIdx], h.buf.bitIdx))
    decreases 8 - h.buf.bitIdx
  {
    if h.buf.bitIdx < 7 {
      var m := AfterWriteBit(h);
      AfterWriteBitNext(h);
      WriteBits(m, s[2..]);
      WriteBitsStep(h, s, NextByte(m), ByteIo(m.buf.data[m.buf.byteIdx], m.buf.bitIdx));
      WriteBitsClose(Run(h, s), h);
    } else {
      WriteSlotRun(h, s);
      ByteIoStep(h.buf.data[h.buf.byteIdx], 7);
    }
  }

  /** A byte after the first: the tick left over at phase 4 releases bit 0,
      then bits 1 to 7 get complete slots. */
  lemma {:induction false} LaterByte(h: Handle, s: seq<bool>)
    requires Valid(h) && h.state == Xfer && h.buf.bitPh == 4 && h.buf.bitIdx == 0
    requires |s| == 15
    ensures Run(h, s) == Step(NextByte(h), SkipIo(h.buf.data[h.buf.byteIdx]))
  {
    var t1 := Callback(h, s[0]);
    assert t1.h == h.(buf := h.buf.(bitIdx := 1, bitPh := 3));
    WriteBits(t1.h, s[1..]);
    assert NextByte(t1.h) == NextByte(h);
  }

  /** One later byte followed by a run that ends at `e`. */
  lemma {:induction false} LaterBytesStep(h: Handle, s: seq<bool>, e: Handle, rest: seq<Effect>)
    requires Valid(h) && h.state == Xfer && h.buf.bitPh == 4 && h.buf.bitIdx == 0 && 15 <= |s|
    requires Run(NextByte(h), s[15..]) == Step(e, rest)
    ensures Run(h, s) == Step(e, SkipIo(h.buf.data[h.buf.byteIdx]) + rest)
  {
    LaterByte(h, s[..15]);
    Compose(h, s, 15, Step(NextByte(h), SkipIo(h.buf.data[h.buf.byteIdx])), Step(e, rest));
  }

  /** A later byte followed by the rest of the region is the region from
      that byte on. */
  lemma {:induction false} LaterBytesClose(r: Step, h: Handle)
    requires Valid(h) && h.state == Xfer && h.buf.bitPh == 4 && h.buf.byteIdx + 1 < h.buf.writeLen
    requires var m := NextByte(h);
             r == Step(WriteDone(m), SkipIo(h.buf.data[h.buf.byteIdx]) + TailIo(m.buf.data, m.buf.byteIdx, m.buf.writeLen))
    ensures r == Step(WriteDone(h), TailIo(h.buf.data, h.buf.byteIdx, h.buf.writeLen))
  {
    NextByteNext(h);
    TailIoStep(h.buf.data, h.buf.byteIdx, h.buf.writeLen);
  }

  /** Moving to a later byte keeps the frame and where the region ends. */
  lemma {:induction false} NextByteNext(h: Handle)
    requires Valid(h) && h.state == Xfer && h.buf.bitPh == 4 && h.buf.byteIdx + 1 < h.buf.writeLen
    ensures var m := NextByte(h);
            && m.state == Xfer && m.buf.bitPh == 4 && m.buf.bitIdx == 0
            && m.buf.byteIdx == h.buf.byteIdx + 1 && m.buf.writeLen == h.buf.writeLen
            && m.buf.data == h.buf.data && WriteDone(m) == WriteDone(h)
  {
  }

  /** Bytes `byteIdx..writeLen` after the first, to the end of the write
      region. */
  lemma {:induction false} LaterBytes(h: Handle, s: seq<bool>)
    requires Valid(h) && h.state == Xfer && h.buf.bitPh == 4 && h.buf.bitIdx == 0
    requires |s| == 15 * (h.buf.writeLen - h.buf.byteIdx)
    ensures Run(h, s) == Step(WriteDone(h), TailIo(h.buf.data, h.buf.byteIdx, h.buf.writeLen))
    decreases h.buf.writeLen - h.buf.byteIdx
  {
    if h.buf.byteIdx + 1 < h.buf.writeLen {
      var m := NextByte(h);
      NextByteNext(h);
      LaterBytes(m, s[15..]);
      LaterBytesStep(h, s, WriteDone(m), TailIo(m.buf.data, m.buf.byteIdx, m.buf.writeLen));
      LaterBytesClose(Run(h, s), h);
    } else {
      LaterByte(h, s);
      TailIoStep(h.buf.data, h.buf.byteIdx, h.buf.writeLen);
    }
  }

  /** The whole write region from its first slot: byte 0 as complete slots,
      every later byte with the release-only bit 0, and then the read phases
      or the end of the transfer. */
  lemma {:induction false} WriteFrame(h: Handle, s: seq<bool>)
    requires Valid(h) && h.state == Xfer && h.buf.bitPh == 3 && h.buf.bitIdx == 0 && h.buf.byteIdx == 0
    requires |s| == 1 + 15 * h.buf.writeLen
    ensures Run(h, s) == Step(WriteDone(h), ByteIo(h.buf.data[0], 0) + TailIo(h.buf.data, 1, h.buf.writeLen))
  {
    var b := h.buf;
    var m := NextByte(h);
    if 1 < b.writeLen {
      WriteBits(h, s[..16]);
      LaterBytes(m, s[16..]);
      assert m.buf.data == b.data && WriteDone(m) == WriteDone(h);
      Compose(h, s, 16, Step(m, ByteIo(b.data[0], 0)), Step(WriteDone(h), TailIo(b.data, 1, b.writeLen)));
    } else {
      WriteBits(h, s);
      assert TailIo(b.data, 1, b.writeLen) == [];
      Finished(ByteIo(b.data[0], 0));
    }
  }

  // ---------------------------------------------------------------------
  // The response region of a transfer

  /** The cursor of a read slot at its sampling tick. */
  function AtSample(h: Handle): (r: Handle)
    requires Valid(h) && h.state == Xfer && h.buf.bitPh == 5
    ensures Valid(r) && r.state == Xfer && r.buf.bitPh == 7
  {
    h.(buf := h.buf.(bitPh := 7))
  }

  /** Phases 5 to 7: one read slot, whose third tick samples the line. */
  lemma {:induction false} ReadSlotRun(h: Handle, s: seq<bool>)
    requires Valid(h) && h.state == Xfer && h.buf.bitPh == 5 && |s| == 3
    ensures Run(h, s) == Step(AfterReadBit(h, s[2]), ReadIo)
  {
    Unroll3(h, s);
    var t1 := Callback(h, s[0]);
    var t2 := Callback(t1.h, s[1]);
    assert t2.h == AtSample(h);
    var t3 := Callback(t2.h, s[2]);
    assert t3 == ReadSample(AtSample(h), s[2]);
    assert t1.io + t2.io + t3.io == ReadIo;
    Finished(ReadIo);
  }

  /** Byte `at` after the read slots for bits `t..8`, three ticks each, the
      third tick's level ORed into the bit. */
  function FillByte(d: seq<bv8>, at: nat, t: nat, s: seq<bool>): (r: seq<bv8>)
    requires at < |d| && t <= 8 && |s| == 3 * (8 - t)
    ensures |r| == |d|
    decreases |s|
  {
    if t == 8 then d else FillByte(Store(d, at, t, s[2]), at, t + 1, s[3..])
  }

  /** The handle after the read slots for the rest of the cursor byte. */
  function ByteRead(h: Handle, s: seq<bool>): Handle
    requires Valid(h) && h.state == Xfer && h.buf.bitPh == 5 && |s| == 3 * (8 - h.buf.bitIdx)
  {
    var b := h.buf;
    h.(buf := b.(data := FillByte(b.data, b.writeLen + b.byteIdx, b.bitIdx, s), bitIdx := 0, byteIdx := b.byteIdx + 1),
       state := if b.byteIdx + 1 == b.readLen then Done else Xfer)
  }

  /** The cursor after one complete read slot that sampled `line`. */
  function AfterReadBit(h: Handle, line: bool): (r: Handle)
    requires Valid(h) && h.state == Xfer && h.buf.bitPh == 5
    ensures Valid(r)
  {
    ReadSample(AtSample(h), line).h
  }

  /** The third tick of a read slot, seen from the slot's first tick. */
  lemma {:induction false} SampleStep(h: Handle, s: seq<bool>)
    requires Valid(h) && h.state == Xfer && h.buf.bitPh == 5 && |s| == 3 * (8 - h.buf.bitIdx)
    ensures var m := AfterReadBit(h, s[2]);
            && (h.buf.bitIdx < 7 ==>
                  && m.state == Xfer && m.buf.bitPh == 5 && m.buf.bitIdx == h.buf.bitIdx + 1
                  && ByteRead(m, s[3..]) == ByteRead(h, s))
            && (h.buf.bitIdx == 7 ==> m == ByteRead(h, s))
  {
    var b := h.buf;
    var at := b.writeLen + b.byteIdx;
    var m := AfterReadBit(h, s[2]);
    assert FillByte(b.data, at, b.bitIdx, s) == FillByte(m.buf.data, at, b.bitIdx + 1, s[3..]);
  }

  /** One read slot followed by `n` more that end at `e`. */
  lemma {:induction false} ReadBitsStep(h: Handle, s: seq<bool>, e: Handle, n: nat)
    requires Valid(h) && h.state == Xfer && h.buf.bitPh == 5 && 3 <= |s|
    requires Run(AfterReadBit(h, s[2]), s[3..]) == Step(e, ReadSlots(n))
    ensures Run(h, s) == Step(e, ReadSlots(n + 1))
  {
    ReadSlotRun(h, s[..3]);
    assert s[..3][2] == s[2];
    JoinSlot(h, s, AfterReadBit(h, s[2]), e, n + 1);
  }

  /** A read slot followed by the rest of the byte is the byte from the
      slot's bit on. */
  lemma {:induction false} ReadBitsClose(r: Step, h: Handle, s: seq<bool>)
    requires Valid(h) && h.state == Xfer && h.buf.bitPh == 5 && h.buf.bitIdx < 7
    requires |s| == 3 * (8 - h.buf.bitIdx)
    requires var m := AfterReadBit(h, s[2]);
             m.state == Xfer && m.buf.bitPh == 5 && m.buf.bitIdx == h.buf.bitIdx + 1
             && r == Step(ByteRead(m, s[3..]), ReadSlots(8 - m.buf.bitIdx + 1))
    ensures r == Step(ByteRead(h, s), ReadSlots(8 - h.buf.bitIdx))
  {
    SampleStep(h, s);
  }

  /** A read slot followed by `k - 1` more. */
  lemma {:induction false} JoinSlot(h: Handle, s: seq<bool>, m: Handle, e: Handle, k: nat)
    requires Valid(h) && 3 <= |s| && k > 0
    requires Run(h, s[..3]) == Step(m, ReadIo)
    requires Valid(m) && Run(m, s[3..]) == Step(e, ReadSlots(k - 1))
    ensures Run(h, s) == Step(e, ReadSlots(k))
  {
    Compose(h, s, 3, Step(m, ReadIo), Step(e, ReadSlots(k - 1)));
    ReadSlotsCons(Run(h, s), e, k);
  }

  /** From phase 5, the read slots for the rest of the cursor byte store
      their samples into it and move the cursor past it; the last byte
      finishes the transfer. */
  lemma {:induction false} ReadBits(h: Handle, s: seq<bool>)
    requires Valid(h) && h.state == Xfer && h.buf.bitPh == 5
    requires |s| == 3 * (8 - h.buf.bitIdx)
    ensures Run(h, s) == Step(ByteRead(h, s), ReadSlots(8 - h.buf.bitIdx))
    decreases 8 - h.buf.bitIdx
  {
    if h.buf.bitIdx < 7 {
      var m := AfterReadBit(h, s[2]);
      SampleStep(h, s);
      ReadBits(m, s[3..]);
      ReadBitsStep(h, s, ByteRead(m, s[3..]), 8 - m.buf.bitIdx);
      ReadBitsClose(Run(h, s), h, s);
    } else {
      ReadSlotRun(h, s);
      SampleStep(h, s);
      assert ReadSlots(1) == ReadIo + [];
    }
  }

  /** The handle after the read slots for the rest of the response. */
  function BytesRead(h: Handle, s: seq<bool>): Handle
    requires Valid(h) && h.state == Xfer && h.buf.bitPh == 5
    requires |s| == 24 * (h.buf.readLen - h.buf.byteIdx)
  {
    var b := h.buf;
    h.(buf := b.(data := FillBytes(b.data, b.writeLen + b.byteIdx, b.writeLen + b.readLen, s), byteIdx := b.readLen),
       state := Done)
  }

  /** Eight read slots per byte. */
  lemma {:induction false} ReadSlotsBytes(k: nat)
    requires k >= 1
    ensures ReadSlots(8 * k) == ReadSlots(8) + ReadSlots(8 * (k - 1))
  {
    ReadSlotsAppend(8, 8 * (k - 1));
  }

  /** After a response byte that is not the last, the cursor sits at the
      first slot of the next byte, and the rest of the response ends where
      the whole one does. */
  lemma {:induction false} ByteReadNext(h: Handle, s: seq<bool>)
    requires Valid(h) && h.state == Xfer && h.buf.bitPh == 5 && h.buf.bitIdx == 0
    requires h.buf.byteIdx + 1 < h.buf.readLen && |s| == 24 * (h.buf.readLen - h.buf.byteIdx)
    ensures var m := ByteRead(h, s[..24]);
            && Valid(m) && m.state == Xfer && m.buf.bitPh == 5 && m.buf.bitIdx == 0
            && m.buf.readLen - m.buf.byteIdx == h.buf.readLen - h.buf.byteIdx - 1
            && |s[24..]| == 24 * (m.buf.readLen - m.buf.byteIdx)
            && BytesRead(m, s[24..]) == BytesRead(h, s)
  {
    var b := h.buf;
    ByteReadValid(h, s[..24]);
    FillBytesHead(b.data, b.writeLen + b.byteIdx, b.writeLen + b.readLen, s);
  }

  lemma {:induction false} ByteReadValid(h: Handle, s: seq<bool>)
    requires Valid(h) && h.state == Xfer && h.buf.bitPh == 5 && |s| == 3 * (8 - h.buf.bitIdx)
    ensures Valid(ByteRead(h, s))
  {
    ReadBits(h, s);
  }

  lemma {:induction false} FillBytesHead(d: seq<bv8>, p: nat, hi: nat, s: seq<bool>)
    requires p < hi <= |d| && |s| == 24 * (hi - p)
    ensures FillBytes(d, p, hi, s) == FillBytes(FillByte(d, p, 0, s[..24]), p + 1, hi, s[24..])
  {
    FillByteIs(d, p, 0, s[..24]);
  }

  /** One response byte followed by `n` more that end at `e`. */
  lemma {:induction false} ReadBytesStep(h: Handle, s: seq<bool>, e: Handle, n: nat)
    requires Valid(h) && h.state == Xfer && h.buf.bitPh == 5 && h.buf.bitIdx == 0 && 24 <= |s|
    requires Valid(ByteRead(h, s[..24])) && Run(ByteRead(h, s[..24]), s[24..]) == Step(e, ReadSlots(8 * n))
    ensures Run(h, s) == Step(e, ReadSlots(8 * (n + 1)))
  {
    ReadBits(h, s[..24]);
    JoinBytes(h, s, ByteRead(h, s[..24]), e, n);
  }

  /** Eight read slots to `m`, then `8 * n` more to `e`. */
  lemma {:induction false} JoinBytes(h: Handle, s: seq<bool>, m: Handle, e: Handle, n: nat)
    requires Valid(h) && 24 <= |s| && Run(h, s[..24]) == Step(m, ReadSlots(8))
    requires Valid(m) && Run(m, s[24..]) == Step(e, ReadSlots(8 * n))
    ensures Run(h, s) == Step(e, ReadSlots(8 * (n + 1)))
  {
    ReadSlotsBytes(n + 1);
    Compose(h, s, 24, Step(m, ReadSlots(8)), Step(e, ReadSlots(8 * n)));
  }

  /** The last response byte finishes the transfer. */
  lemma {:induction false} LastByteRead(h: Handle, s: seq<bool>)
    requires Valid(h) && h.state == Xfer && h.buf.bitPh == 5 && h.buf.bitIdx == 0
    requires h.buf.byteIdx + 1 == h.buf.readLen && |s| == 24
    ensures Run(h, s) == Step(BytesRead(h, s), ReadSlots(8))
  {
    ReadBits(h, s);
    var at := h.buf.writeLen + h.buf.byteIdx;
    assert s[..24] == s;
    FillBytesHead(h.buf.data, at, at + 1, s);
  }

  /** A response byte followed by the rest of the response is the response
      from that byte on. */
  lemma {:induction false} ReadBytesJoin(h: Handle, s: seq<bool>)
    requires Valid(h) && h.state == Xfer && h.buf.bitPh == 5 && h.buf.bitIdx == 0
    requires h.buf.byteIdx + 1 < h.buf.readLen && |s| == 24 * (h.buf.readLen - h.buf.byteIdx)
    requires var m := ByteRead(h, s[..24]);
             Valid(m) && m.state == Xfer && m.buf.bitPh == 5 && |s[24..]| == 24 * (m.buf.readLen - m.buf.byteIdx)
             && Run(m, s[24..]) == Step(BytesRead(m, s[24..]), ReadSlots(8 * (m.buf.readLen - m.buf.byteIdx)))
    ensures Run(h, s) == Step(BytesRead(h, s), ReadSlots(8 * (h.buf.readLen - h.buf.byteIdx)))
  {
    ByteReadNext(h, s);
    var m := ByteRead(h, s[..24]);
    ReadBytesStep(h, s, BytesRead(m, s[24..]), m.buf.readLen - m.buf.byteIdx);
  }

  /** From the first slot of response byte `byteIdx`, the read slots fill
      the rest of the response and finish the transfer. */
  lemma {:induction false} ReadBytes(h: Handle, s: seq<bool>)
    requires Valid(h) && h.state == Xfer && h.buf.bitPh == 5 && h.buf.bitIdx == 0
    requires |s| == 24 * (h.buf.readLen - h.buf.byteIdx)
    ensures Run(h, s) == Step(BytesRead(h, s), ReadSlots(8 * (h.buf.readLen - h.buf.byteIdx)))
    decreases h.buf.readLen - h.buf.byteIdx
  {
    if h.buf.byteIdx + 1 < h.buf.readLen {
      var m := ByteRead(h, s[..24]);
      ByteReadNext(h, s);
      ReadBytes(m, s[24..]);
      ReadBytesJoin(h, s);
    } else {
      LastByteRead(h, s);
    }
  }

  /** The in-place fill of byte `at` changes that byte alone, to its
      byte-level fill. */
  lemma {:induction false} FillByteIs(d: seq<bv8>, at: nat, t: nat, s: seq<bool>)
    requires at < |d| && t <= 8 && |s| == 3 * (8 - t)
    ensures FillByte(d, at, t, s) == d[at := FillBits(d[at], t, s)]
    decreases 8 - t
  {
    if t < 8 {
      var d1 := Store(d, at, t, s[2]);
      FillByteIs(d1, at, t + 1, s[3..]);
      assert d1[at := FillBits(d1[at], t + 1, s[3..])] == d[at := FillBits(d[at], t, s)];
    }
  }

  /** `ow_read_resp` after a complete read region: the transfer is done, the
      frame is intact, and bit `j` of response byte `k` is the line level
      sampled in the third tick of read slot `8k + j`. */
  lemma {:induction false} ReadResponse(h: Handle, s: seq<bool>)
    requires Valid(h) && h.state == Xfer && h.buf.bitPh == 5 && h.buf.bitIdx == 0 && h.buf.byteIdx == 0
    requires |s| == 24 * h.buf.readLen
    ensures var r := Run(h, s);
            var resp := ReadResp(r.h, h.buf.readLen);
            && r.h.state == Done
            && Frame(r.h.buf) == Frame(h.buf)
            && |resp| == h.buf.readLen
            && forall k, j :: 0 <= k < |resp| && 0 <= j < 8 ==> Bit(resp[k], j) == s[24 * k + 3 * j + 2]
  {
    ReadBytes(h, s);
    ResponseBits(h.buf, s);
    Response(Step(BytesRead(h, s), ReadSlots(8 * h.buf.readLen)), h.buf, s);
  }

  /** The response `ow_read_resp` hands out from a filled region. */
  lemma {:induction false} Response(r: Step, b: Buf, s: seq<bool>)
    requires |b.data| == BUF_LEN && b.writeLen + b.readLen <= BUF_LEN && |s| == 24 * b.readLen
    requires Valid(r.h) && r.h.state == Done && r.h.buf.writeLen == b.writeLen && r.h.buf.readLen == b.readLen
    requires forall k :: 0 <= k < b.writeLen ==> r.h.buf.data[k] == b.data[k]
    requires forall k, j :: 0 <= k < b.readLen && 0 <= j < 8 ==> Bit(r.h.buf.data[b.writeLen + k], j) == s[24 * k + 3 * j + 2]
    ensures var resp := ReadResp(r.h, b.readLen);
            && r.h.state == Done
            && Frame(r.h.buf) == Frame(b)
            && |resp| == b.readLen
            && forall k, j :: 0 <= k < |resp| && 0 <= j < 8 ==> Bit(resp[k], j) == s[24 * k + 3 * j + 2]
  {
    var resp := ReadResp(r.h, b.readLen);
    forall k, j | 0 <= k < |resp| && 0 <= j < 8
      ensures Bit(resp[k], j) == s[24 * k + 3 * j + 2]
    {
      assert resp[k] == r.h.buf.data[b.writeLen + k];
    }
  }

  /** Every bit of a filled response region that started clear. */
  lemma {:induction false} ResponseBits(b: Buf, s: seq<bool>)
    requires |b.data| == BUF_LEN && b.writeLen + b.readLen <= BUF_LEN && b.bitPh == 5
    requires b.bitIdx == 0 && b.byteIdx == 0 && XferOk(b)
    requires |s| == 24 * b.readLen
    ensures var d := FillBytes(b.data, b.writeLen, b.writeLen + b.readLen, s);
            && (forall k :: 0 <= k < b.writeLen ==> d[k] == b.data[k])
            && (forall k, j :: 0 <= k < b.readLen && 0 <= j < 8 ==> Bit(d[b.writeLen + k], j) == s[24 * k + 3 * j + 2])
  {
    var lo, hi := b.writeLen, b.writeLen + b.readLen;
    var d := FillBytes(b.data, lo, hi, s);
    forall k, j | 0 <= k < b.readLen && 0 <= j < 8
      ensures Bit(d[lo + k], j) == s[24 * k + 3 * j + 2]
    {
      ResponseBit(b, s, k, j);
    }
    assert forall k :: 0 <= k < lo ==> d[k] == b.data[k] by {
      FillBytesAt(b.data, lo, hi, s);
    }
  }

  /** One bit of one filled response byte. */
  lemma {:induction false} ResponseBit(b: Buf, s: seq<bool>, k: nat, j: nat)
    requires |b.data| == BUF_LEN && b.writeLen + b.readLen <= BUF_LEN && b.bitPh == 5
    requires b.bitIdx == 0 && b.byteIdx == 0 && XferOk(b)
    requires |s| == 24 * b.readLen && k < b.readLen && j < 8
    ensures Bit(FillBytes(b.data, b.writeLen, b.writeLen + b.readLen, s)[b.writeLen + k], j) == s[24 * k + 3 * j + 2]
  {
    FillBytesAt(b.data, b.writeLen, b.writeLen + b.readLen, s);
    var t := ByteTicks(s, b.writeLen, b.writeLen + k);
    RegionClear(b, k);
    FillBitsBit(b.data[b.writeLen + k], 0, t, j);
    assert t[3 * j + 2] == s[24 * k + 3 * j + 2];
  }

  /** Before its first read slot every response byte is clear. */
  lemma {:induction false} RegionClear(b: Buf, k: nat)
    requires |b.data| == BUF_LEN && b.writeLen + b.readLen <= BUF_LEN && b.bitPh == 5
    requires b.bitIdx == 0 && b.byteIdx == 0 && XferOk(b) && k < b.readLen
    ensures ClearFrom(b.data[b.writeLen + k], 0)
  {
    if k > 0 {
      assert b.data[b.writeLen + k] == 0;
      forall j | 0 <= j < 8
        ensures !Bit(0, j)
      {
      }
    }
  }

  // ---------------------------------------------------------------------
  // The SEARCH ROM command of a discovery

  /** The cursor after one bit of the command byte. */
  function AfterCmdBit(h: Handle): (r: Handle)
    requires Valid(h) && h.state == Search && h.buf.bitPh == 3
    ensures Valid(r)
  {
    if h.buf.bitIdx < 7 then h.(buf := h.buf.(bitIdx := h.buf.bitIdx + 1))
    else h.(buf := h.buf.(bitIdx := 0, bitPh := 5))
  }

  /** Phases 3 and 4 of a discovery: one complete write slot for the bit of
      the command byte under the cursor. */
  lemma {:induction false} CmdSlotRun(h: Handle, s: seq<bool>)
    requires Valid(h) && h.state == Search && h.buf.bitPh == 3 && |s| == 2
    ensures Run(h, s) == Step(AfterCmdBit(h), SlotIo(Bit(h.buf.data[0], h.buf.bitIdx)))
  {
    Unroll2(h, s);
    var t1 := Callback(h, s[0]);
    var t2 := Callback(t1.h, s[1]);
    assert t1.h == h.(buf := h.buf.(bitPh := 4));
    assert t2.h == AfterCmdBit(h);
    assert t1.io + t2.io == SlotIo(Bit(h.buf.data[0], h.buf.bitIdx));
    Finished(SlotIo(Bit(h.buf.data[0], h.buf.bitIdx)));
  }

  /** One command slot followed by the rest of the command byte. */
  lemma {:induction false} SearchCommandStep(h: Handle, s: seq<bool>)
    requires Valid(h) && h.state == Search && h.buf.bitPh == 3 && h.buf.bitIdx < 7
    requires |s| == 2 * (8 - h.buf.bitIdx)
    requires var m := AfterCmdBit(h);
             Run(m, s[2..]) == Step(m.(buf := m.buf.(bitIdx := 0, bitPh := 5)), ByteIo(m.buf.data[0], m.buf.bitIdx))
    ensures Run(h, s) == Step(h.(buf := h.buf.(bitIdx := 0, bitPh := 5)), ByteIo(h.buf.data[0], h.buf.bitIdx))
  {
    var m := AfterCmdBit(h);
    var d := h.buf.data[0];
    CmdSlotRun(h, s[..2]);
    ByteIoStep(d, h.buf.bitIdx);
    Compose(h, s, 2, Step(m, SlotIo(Bit(d, h.buf.bitIdx))),
            Step(h.(buf := h.buf.(bitIdx := 0, bitPh := 5)), ByteIo(d, h.buf.bitIdx + 1)));
  }

  /** The command byte of a discovery goes out least significant bit first,
      every bit as a complete slot, and the machine reaches the first round
      at candidate bit 0. */
  lemma {:induction false} SearchCommand(h: Handle, s: seq<bool>)
    requires Valid(h) && h.state == Search && h.buf.bitPh == 3
    requires |s| == 2 * (8 - h.buf.bitIdx)
    ensures Run(h, s) == Step(h.(buf := h.buf.(bitIdx := 0, bitPh := 5)), ByteIo(h.buf.data[0], h.buf.bitIdx))
    decreases 8 - h.buf.bitIdx
  {
    if h.buf.bitIdx < 7 {
      SearchCommand(AfterCmdBit(h), s[2..]);
      SearchCommandStep(h, s);
    } else {
      CmdSlotRun(h, s);
      ByteIoStep(h.buf.data[0], 7);
    }
  }
}
