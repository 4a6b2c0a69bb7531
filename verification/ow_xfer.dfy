/** `ow_state_xfer`: the transfer machine of the current revision. Phases
    0-2 reset the bus and check presence, 3-4 write the frame bit by bit
    (least significant bit first), 5-7 read the response bit by bit. */
module OwXfer {
  import opened OwConfig
  import opened Wire
  import opened OwHandle

  /** The bit under the write cursor. */
  function CurBit(b: Buf): bool
    requires b.byteIdx < |b.data| && b.bitIdx < 8
  {
    Bit(b.data[b.byteIdx], b.bitIdx)
  }

  /** Where the write region leaves the transfer: at the read phases when a
      response is expected, otherwise finished with the byte cursor at the
      end of the frame. */
  function WriteDone(h: Handle): Handle
  {
    var b := h.buf;
    if b.readLen > 0 then h.(buf := b.(bitIdx := 0, byteIdx := 0, bitPh := 5))
    else h.(buf := b.(bitIdx := 0, byteIdx := b.writeLen, bitPh := 4), state := Done)
  }

  /** Phase 3: pull low; a 1 bit gets the short low time. */
  function WriteLow(h: Handle): (r: Step)
    requires Valid(h) && h.state == Xfer && h.buf.bitPh == 3
    ensures Valid(r.h) && r.h.state == Xfer && Untouched(h, r.h)
    ensures r.h == h.(buf := h.buf.(bitPh := 4))
    ensures |r.io| == 2 && r.io[0].SetPeriod? && r.io[1] == Drive(false)
    ensures r.io[0].ticks == TIM_WRITE_LOW <==> CurBit(h.buf)
  {
    Advance(h, WriteLowPeriod(CurBit(h.buf)), false, 4)
  }

  /** Phase 4: release for the rest of the slot and move the cursor. At a
      byte boundary with bytes left the phase is not reset to 3, so the next
      tick releases the line again for bit 0 of the next byte. */
  function WriteRelease(h: Handle): (r: Step)
    requires Valid(h) && h.state == Xfer && h.buf.bitPh == 4
    ensures Valid(r.h) && r.h.state in {Xfer, Done} && Untouched(h, r.h)
    ensures r.io == [SetPeriod(WriteHighPeriod(CurBit(h.buf))), Drive(true)]
    ensures var b := h.buf;
            && (b.bitIdx < 7 ==> r.h == h.(buf := b.(bitIdx := b.bitIdx + 1, bitPh := 3)))
            && (b.bitIdx == 7 && b.byteIdx + 1 < b.writeLen ==>
                  r.h == h.(buf := b.(bitIdx := 0, byteIdx := b.byteIdx + 1)))
            && (b.bitIdx == 7 && b.byteIdx + 1 == b.writeLen ==> r.h == WriteDone(h))
  {
    var b := h.buf;
    var io := [SetPeriod(WriteHighPeriod(CurBit(b))), Drive(true)];
    var i := b.bitIdx + 1;
    if i != 8 then
      Step(h.(buf := b.(bitIdx := i, bitPh := 3)), io)
    else
      var j := b.byteIdx + 1;
      if j != b.writeLen then
        Step(h.(buf := b.(bitIdx := 0, byteIdx := j)), io)
      else if b.readLen > 0 then
        Step(h.(buf := b.(bitIdx := 0, byteIdx := 0, bitPh := 5)), io)
      else
        Step(h.(buf := b.(bitIdx := 0, byteIdx := j), state := Done), io)
  }

  /** `d[at] |= (1 << t)` when the line is high. */
  function Store(d: seq<bv8>, at: nat, t: nat, line: bool): (r: seq<bv8>)
    requires at < |d| && t < 8
    ensures |r| == |d|
  {
    if line then d[at := SetBit(d[at], t)] else d
  }

  /** The buffer bytes after ORing a high sample into bit `bitIdx` of
      response byte `byteIdx`. */
  function StoreSample(b: Buf, line: bool): (d: seq<bv8>)
    requires |b.data| == BUF_LEN && b.bitIdx < 8 && b.writeLen + b.byteIdx < BUF_LEN
    ensures |d| == BUF_LEN
    ensures var at := b.writeLen + b.byteIdx;
            && Bit(d[at], b.bitIdx) == (line || Bit(b.data[at], b.bitIdx))
            && (forall j :: 0 <= j < 8 && j != b.bitIdx ==> Bit(d[at], j) == Bit(b.data[at], j))
            && (forall k :: 0 <= k < BUF_LEN && k != at ==> d[k] == b.data[k])
  {
    Store(b.data, b.writeLen + b.byteIdx, b.bitIdx, line)
  }

  /** The buffer after a read sample: the sample stored, the bit cursor one
      further, and at a byte boundary the byte cursor one further. Response
      bits not yet sampled stay clear. */
  function SampleBuf(b: Buf, line: bool): (nb: Buf)
    requires |b.data| == BUF_LEN && b.writeLen + b.readLen <= BUF_LEN && XferOk(b) && b.bitPh == 7
    ensures nb.data == StoreSample(b, line)
    ensures b.bitIdx < 7 ==> nb == b.(data := nb.data, bitIdx := b.bitIdx + 1, bitPh := 5)
    ensures b.bitIdx == 7 ==> nb == b.(data := nb.data, bitIdx := 0, byteIdx := b.byteIdx + 1, bitPh := 5)
    ensures nb.byteIdx < nb.readLen ==> XferOk(nb)
  {
    var data := StoreSample(b, line);
    var i := b.bitIdx + 1;
    if i != 8 then b.(data := data, bitPh := 5, bitIdx := i)
    else b.(data := data, bitPh := 5, bitIdx := 0, byteIdx := b.byteIdx + 1)
  }

  /** Phase 7: sample the line and OR a high level into the response byte. */
  function ReadSample(h: Handle, line: bool): (r: Step)
    requires Valid(h) && h.state == Xfer && h.buf.bitPh == 7
    ensures Valid(r.h) && r.h.state in {Xfer, Done} && Untouched(h, r.h)
    ensures r.io == [SetPeriod(TIM_READ_HIGH)]
    ensures r.h.buf.data == StoreSample(h.buf, line)
    ensures !Bit(h.buf.data[h.buf.writeLen + h.buf.byteIdx], h.buf.bitIdx)
    ensures var b := h.buf;
            && (b.bitIdx < 7 ==>
                  r.h == h.(buf := b.(data := r.h.buf.data, bitIdx := b.bitIdx + 1, bitPh := 5)))
            && (b.bitIdx == 7 ==>
                  r.h == h.(buf := b.(data := r.h.buf.data, bitIdx := 0, byteIdx := b.byteIdx + 1, bitPh := 5),
                            state := if b.byteIdx + 1 == b.readLen then Done else Xfer))
  {
    var b := h.buf;
    var nb := SampleBuf(b, line);
    Step(h.(buf := nb, state := if nb.byteIdx == b.readLen then Done else h.state), [SetPeriod(TIM_READ_HIGH)])
  }

  /** One timer tick of a transfer. It keeps the handle invariant, never
      touches the device table or the search fields, and can only fail with
      a missing presence pulse. */
  function XferTick(h: Handle, line: bool): (r: Step)
    requires Valid(h) && h.state == Xfer
    ensures Valid(r.h)
    ensures r.h.state in {Xfer, Done, Idle}
    ensures r.h.state == Idle <==> h.buf.bitPh == 2 && line
    ensures r.h.state != Idle ==> Untouched(h, r.h)
    ensures r.h.state == Idle ==> Untouched(h.(error := Reset), r.h)
  {
    var b := h.buf;
    if b.bitPh <= 2 then ResetTick(h, line)
    else if b.bitPh == 3 then WriteLow(h)
    else if b.bitPh == 4 then WriteRelease(h)
    else if b.bitPh == 5 then Advance(h, TIM_READ_LOW, false, 6)
    else if b.bitPh == 6 then Advance(h, TIM_READ_SAMPLE, true, 7)
    else ReadSample(h, line)
  }
}
