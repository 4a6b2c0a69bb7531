/** Whole bytes over many ticks in the G431 revision: the function command
    and the payload go out least significant bit first, and the id read and
    the data read fill their bytes bit by bit in the same order. */
module G431Frames {
  import opened OwConfig
  import opened Wire
  import opened G431Handle
  import opened G431Machine
  import opened G431Requests
  import opened G431Props

  /** Splitting a run in two at tick `n`, given what each part does. */
  lemma {:induction false} Compose(h: Handle, s: seq<bool>, n: nat, readRest: nat, a: Step, c: Step)
    requires Valid(h) && n <= |s| && Run(h, s[..n], readRest) == a
    requires Valid(a.h) && Run(a.h, s[n..], readRest) == c
    ensures Run(h, s, readRest) == Step(c.h, a.io + c.io)
  {
    RunAppend(h, s[..n], s[n..], readRest);
    assert s[..n] + s[n..] == s;
  }

  // Function command

  /** The state `ow_state_fn_cmd` hands over to after the command byte. */
  function FnNext(b: Buf): State
  {
    if b.rLen > 0 then DataR else if b.wLen > 0 then DataW else Idle
  }

  /** The handle after the function command bit at `bitI`. */
  function AfterFnBit(h: Handle): Handle
    requires Valid(h) && h.state == FnCmd
  {
    if h.buf.bitI < 7 then h.(buf := h.buf.(bitI := h.buf.bitI + 1))
    else h.(buf := h.buf.(bitI := 0), state := FnNext(h.buf))
  }

  /** Two ticks of the function command state send one bit as a complete
      write slot. */
  lemma {:induction false} FnSlot(h: Handle, s: seq<bool>, readRest: nat)
    requires Valid(h) && h.state == FnCmd && h.buf.tmp == 0 && |s| >= 2
    ensures Valid(AfterFnBit(h))
    ensures Run(h, s[..2], readRest) == Step(AfterFnBit(h), SlotIo(Bit(h.buf.fnCmd, h.buf.bitI)))
  {
    Unroll2(h, s[..2], readRest);
    assert s[..2][2..] == [];
    var t1 := Callback(h, s[0], readRest);
    var t2 := Callback(t1.h, s[1], readRest);
    assert t2.h == AfterFnBit(h);
  }

  /** Ticks of the function command state send the rest of the command
      byte, least significant bit first, and then hand over to the read, the
      write or idle. */
  lemma {:induction false} FnCmdByte(h: Handle, s: seq<bool>, readRest: nat)
    requires Valid(h) && h.state == FnCmd && h.buf.tmp == 0
    requires |s| == 2 * (8 - h.buf.bitI)
    ensures Run(h, s, readRest) == Step(h.(buf := h.buf.(bitI := 0), state := FnNext(h.buf)),
                                        ByteIo(h.buf.fnCmd, h.buf.bitI))
    decreases |s|
  {
    FnSlot(h, s, readRest);
    var m := AfterFnBit(h);
    var slot := SlotIo(Bit(h.buf.fnCmd, h.buf.bitI));
    if h.buf.bitI < 7 {
      FnCmdByte(m, s[2..], readRest);
      Compose(h, s, 2, readRest, Step(m, slot), Run(m, s[2..], readRest));
      assert ByteIo(h.buf.fnCmd, h.buf.bitI) == slot + ByteIo(h.buf.fnCmd, h.buf.bitI + 1);
    } else {
      assert s[..2] == s;
      assert ByteIo(h.buf.fnCmd, 8) == [];
      assert slot + [] == slot;
    }
  }

  // Data write

  /** Where the data write goes after the last bit of byte `byteI`: the
      next byte, or idle after the last one. */
  function NextW(h: Handle): (r: Handle)
    requires Valid(h) && h.state == DataW
    ensures Valid(r)
  {
    var b := h.buf;
    if b.byteI + 1 == b.wLen then h.(buf := b.(bitI := 0, byteI := b.wLen), state := Idle)
    else h.(buf := b.(bitI := 0, byteI := b.byteI + 1))
  }

  /** The handle after the payload bit at `bitI`. */
  function AfterWBit(h: Handle): (r: Handle)
    requires Valid(h) && h.state == DataW
    ensures Valid(r)
  {
    if h.buf.bitI < 7 then h.(buf := h.buf.(bitI := h.buf.bitI + 1)) else NextW(h)
  }

  /** Two ticks of the data write state send one payload bit as a complete
      write slot. */
  lemma {:induction false} DataWSlot(h: Handle, s: seq<bool>, readRest: nat)
    requires Valid(h) && h.state == DataW && h.buf.tmp == 0 && |s| >= 2
    ensures Valid(AfterWBit(h))
    ensures Run(h, s[..2], readRest) == Step(AfterWBit(h), SlotIo(Bit(h.buf.data[h.buf.byteI], h.buf.bitI)))
  {
    Unroll2(h, s[..2], readRest);
    assert s[..2][2..] == [];
    var t1 := Callback(h, s[0], readRest);
    var t2 := Callback(t1.h, s[1], readRest);
    assert t2.h == AfterWBit(h);
  }

  /** Ticks of the data write state send the rest of payload byte `byteI`,
      least significant bit first, then move to the next byte or go idle
      after the last one. */
  lemma {:induction false} DataWByte(h: Handle, s: seq<bool>, readRest: nat)
    requires Valid(h) && h.state == DataW && h.buf.tmp == 0
    requires |s| == 2 * (8 - h.buf.bitI)
    ensures Valid(NextW(h))
    ensures Run(h, s, readRest) == Step(NextW(h), ByteIo(h.buf.data[h.buf.byteI], h.buf.bitI))
    decreases |s|
  {
    if h.buf.bitI < 7 {
      var m := AfterWBit(h);
      DataWByte(m, s[2..], readRest);
      assert NextW(m) == NextW(h);
      DataWStep(h, s, readRest, NextW(h));
    } else {
      DataWSlot(h, s, readRest);
      assert s[..2] == s;
      assert ByteIo(h.buf.data[h.buf.byteI], 8) == [];
      assert SlotIo(Bit(h.buf.data[h.buf.byteI], 7)) + [] == SlotIo(Bit(h.buf.data[h.buf.byteI], 7));
    }
  }

  /** One payload bit below bit 7, then the rest of its byte ending at `e`. */
  lemma {:induction false} DataWStep(h: Handle, s: seq<bool>, readRest: nat, e: Handle)
    requires Valid(h) && h.state == DataW && h.buf.tmp == 0 && h.buf.bitI < 7 && |s| >= 2
    requires Run(AfterWBit(h), s[2..], readRest) == Step(e, ByteIo(h.buf.data[h.buf.byteI], h.buf.bitI + 1))
    ensures Run(h, s, readRest) == Step(e, ByteIo(h.buf.data[h.buf.byteI], h.buf.bitI))
  {
    DataWSlot(h, s, readRest);
    var slot := SlotIo(Bit(h.buf.data[h.buf.byteI], h.buf.bitI));
    Compose(h, s, 2, readRest, Step(AfterWBit(h), slot), Step(e, ByteIo(h.buf.data[h.buf.byteI], h.buf.bitI + 1)));
    assert ByteIo(h.buf.data[h.buf.byteI], h.buf.bitI) == slot + ByteIo(h.buf.data[h.buf.byteI], h.buf.bitI + 1);
  }

  /** The write slots of payload bytes `from..to`, each least significant
      bit first. */
  function PayloadIo(d: seq<bv8>, from: nat, to: nat): seq<Effect>
    requires from <= to <= |d|
    decreases |d| - from
  {
    if from == to then [] else ByteIo(d[from], 0) + PayloadIo(d, from + 1, to)
  }

  /** The payload write after byte `byteI` is the same write one byte on. */
  lemma {:induction false} NextWNext(h: Handle)
    requires Valid(h) && h.state == DataW && h.buf.tmp == 0 && h.buf.bitI == 0 && h.buf.byteI + 1 < h.buf.wLen
    ensures var m := NextW(h);
            && Valid(m) && m.state == DataW && m.buf.tmp == 0 && m.buf.bitI == 0
            && m.buf.byteI == h.buf.byteI + 1 && m.buf.wLen == h.buf.wLen && m.buf.data == h.buf.data
            && m.(buf := m.buf.(byteI := m.buf.wLen), state := Idle) == h.(buf := h.buf.(byteI := h.buf.wLen), state := Idle)
  {
  }

  /** One payload byte followed by a run that ends at `e` with `rest`. */
  lemma {:induction false} PayloadStep(h: Handle, s: seq<bool>, readRest: nat, e: Handle, rest: seq<Effect>)
    requires Valid(h) && h.state == DataW && h.buf.tmp == 0 && h.buf.bitI == 0 && 16 <= |s|
    requires Valid(NextW(h)) && Run(NextW(h), s[16..], readRest) == Step(e, rest)
    ensures Run(h, s, readRest) == Step(e, ByteIo(h.buf.data[h.buf.byteI], 0) + rest)
  {
    DataWByte(h, s[..16], readRest);
    Compose(h, s, 16, readRest, Step(NextW(h), ByteIo(h.buf.data[h.buf.byteI], 0)), Step(e, rest));
  }

  /** The write slots of bytes `from..to` are those of byte `from` followed
      by those of the rest. */
  lemma {:induction false} PayloadIoStep(d: seq<bv8>, from: nat, to: nat)
    requires from < to <= |d|
    ensures PayloadIo(d, from, to) == ByteIo(d[from], 0) + PayloadIo(d, from + 1, to)
    ensures from + 1 == to ==> PayloadIo(d, from, to) == ByteIo(d[from], 0)
  {
    if from + 1 == to {
      assert ByteIo(d[from], 0) + [] == ByteIo(d[from], 0);
    }
  }

  /** A payload byte followed by the rest of the payload is the payload
      from that byte on. */
  lemma {:induction false} PayloadClose(r: Step, h: Handle)
    requires Valid(h) && h.state == DataW && h.buf.tmp == 0 && h.buf.bitI == 0 && h.buf.byteI + 1 < h.buf.wLen
    requires var m := NextW(h);
             r == Step(m.(buf := m.buf.(byteI := m.buf.wLen), state := Idle),
                       ByteIo(h.buf.data[h.buf.byteI], 0) + PayloadIo(m.buf.data, m.buf.byteI, m.buf.wLen))
    ensures r == Step(h.(buf := h.buf.(byteI := h.buf.wLen), state := Idle), PayloadIo(h.buf.data, h.buf.byteI, h.buf.wLen))
  {
    NextWNext(h);
    PayloadIoStep(h.buf.data, h.buf.byteI, h.buf.wLen);
  }

  /** The last payload byte leaves the machine idle. */
  lemma {:induction false} LastPayloadByte(h: Handle, s: seq<bool>, readRest: nat)
    requires Valid(h) && h.state == DataW && h.buf.tmp == 0 && h.buf.bitI == 0
    requires h.buf.byteI + 1 == h.buf.wLen && |s| == 16
    ensures Run(h, s, readRest) == Step(h.(buf := h.buf.(byteI := h.buf.wLen), state := Idle),
                                        PayloadIo(h.buf.data, h.buf.byteI, h.buf.wLen))
  {
    DataWByte(h, s, readRest);
    PayloadIoStep(h.buf.data, h.buf.byteI, h.buf.wLen);
  }

  /** From the start of payload byte `byteI`, sixteen ticks per byte send
      the rest of the payload in order and leave the machine idle. */
  lemma {:induction false} DataWPayload(h: Handle, s: seq<bool>, readRest: nat)
    requires Valid(h) && h.state == DataW && h.buf.tmp == 0 && h.buf.bitI == 0
    requires |s| == 16 * (h.buf.wLen - h.buf.byteI)
    ensures Run(h, s, readRest) == Step(h.(buf := h.buf.(byteI := h.buf.wLen), state := Idle),
                                        PayloadIo(h.buf.data, h.buf.byteI, h.buf.wLen))
    decreases |s|
  {
    if h.buf.byteI + 1 < h.buf.wLen {
      var m := NextW(h);
      NextWNext(h);
      DataWPayload(m, s[16..], readRest);
      PayloadStep(h, s, readRest, m.(buf := m.buf.(byteI := m.buf.wLen), state := Idle),
                  PayloadIo(m.buf.data, m.buf.byteI, m.buf.wLen));
      PayloadClose(Run(h, s, readRest), h);
    } else {
      LastPayloadByte(h, s, readRest);
    }
  }

  // Data read

  /** `Slots(io, n)`: `n` read slots, each emitting `io`. */
  function Slots(io: seq<Effect>, n: nat): seq<Effect>
    decreases n
  {
    if n == 0 then [] else io + Slots(io, n - 1)
  }

  /** The actions of one read slot of the data read: pull low, release,
      then the rest of the slot with the line released again. */
  function DataRIo(readRest: nat): seq<Effect>
  {
    ReadLowIo + ReadReleaseIo + [SetPeriod(readRest), Drive(true)]
  }

  /** A byte with a sample ORed into bit `t`. */
  function Sampled(x: bv8, t: nat, line: bool): bv8
    requires t < 8
  {
    if line then SetBit(x, t) else x
  }

  /** Where the data read goes after byte `byteI`, whose final value is `x`:
      the next byte, or idle after the last one. */
  function NextR(h: Handle, x: bv8): (r: Handle)
    requires Valid(h) && h.state == DataR
    ensures Valid(r)
  {
    var b := h.buf;
    var d := b.data[b.byteI := x];
    if b.byteI + 1 == b.rLen then h.(buf := b.(data := d, tmp := 0, bitI := 0, byteI := b.rLen), state := Idle)
    else h.(buf := b.(data := d, tmp := 0, bitI := 0, byteI := b.byteI + 1))
  }

  /** The handle after the read slot for bit `bitI` with sample `line`. */
  function AfterRBit(h: Handle, line: bool): (r: Handle)
    requires Valid(h) && h.state == DataR
    ensures Valid(r)
  {
    var b := h.buf;
    var x := Sampled(b.data[b.byteI], b.bitI, line);
    if b.bitI < 7 then h.(buf := b.(data := b.data[b.byteI := x], tmp := 0, bitI := b.bitI + 1))
    else NextR(h, x)
  }

  /** Three ticks of the data read state are one read slot; the third
      sample is ORed into bit `bitI` of byte `byteI`. */
  lemma {:induction false} DataRSlot(h: Handle, s: seq<bool>, readRest: nat)
    requires Valid(h) && h.state == DataR && h.buf.tmp == 0 && |s| >= 3
    ensures Run(h, s[..3], readRest) == Step(AfterRBit(h, s[2]), DataRIo(readRest))
  {
    var b := h.buf;
    Unroll3(h, s[..3], readRest);
    assert s[..3][3..] == [];
    assert s[..3][2] == s[2];
    assert b.data[b.byteI := b.data[b.byteI]] == b.data;
    var t1 := Callback(h, s[0], readRest);
    var t2 := Callback(t1.h, s[1], readRest);
    var t3 := Callback(t2.h, s[2], readRest);
    assert t3.h == AfterRBit(h, s[2]);
  }

  /** One read slot followed by `n` more that end at `e`. */
  lemma {:induction false} DataRStep(h: Handle, s: seq<bool>, readRest: nat, e: Handle, n: nat)
    requires Valid(h) && h.state == DataR && h.buf.tmp == 0 && 3 <= |s|
    requires Run(AfterRBit(h, s[2]), s[3..], readRest) == Step(e, Slots(DataRIo(readRest), n))
    ensures Run(h, s, readRest) == Step(e, Slots(DataRIo(readRest), n + 1))
  {
    DataRSlot(h, s, readRest);
    Compose(h, s, 3, readRest, Step(AfterRBit(h, s[2]), DataRIo(readRest)), Step(e, Slots(DataRIo(readRest), n)));
  }

  /** Below bit 7, the read of the rest of the byte after one slot is the
      read of the rest of the byte. */
  lemma {:induction false} AfterRBitNext(h: Handle, s: seq<bool>)
    requires Valid(h) && h.state == DataR && h.buf.tmp == 0 && h.buf.bitI < 7
    requires |s| == 3 * (8 - h.buf.bitI)
    ensures var m := AfterRBit(h, s[2]);
            && m.state == DataR && m.buf.tmp == 0 && m.buf.bitI == h.buf.bitI + 1
            && |s[3..]| == 3 * (8 - m.buf.bitI)
            && NextR(m, FillBits(m.buf.data[m.buf.byteI], m.buf.bitI, s[3..]))
               == NextR(h, FillBits(h.buf.data[h.buf.byteI], h.buf.bitI, s))
  {
    var b := h.buf;
    var m := AfterRBit(h, s[2]);
    var x := Sampled(b.data[b.byteI], b.bitI, s[2]);
    assert m.buf.data[m.buf.byteI] == x;
    assert m.buf.data[b.byteI := FillBits(x, b.bitI + 1, s[3..])] == b.data[b.byteI := FillBits(x, b.bitI + 1, s[3..])];
  }

  /** A slot followed by the rest of the byte is the rest of the byte. */
  lemma {:induction false} DataRClose(r: Step, h: Handle, s: seq<bool>, readRest: nat)
    requires Valid(h) && h.state == DataR && h.buf.tmp == 0 && h.buf.bitI < 7
    requires |s| == 3 * (8 - h.buf.bitI)
    requires var m := AfterRBit(h, s[2]);
             && m.state == DataR && m.buf.bitI < 8
             && r == Step(NextR(m, FillBits(m.buf.data[m.buf.byteI], m.buf.bitI, s[3..])),
                          Slots(DataRIo(readRest), 8 - m.buf.bitI + 1))
    ensures r == Step(NextR(h, FillBits(h.buf.data[h.buf.byteI], h.buf.bitI, s)), Slots(DataRIo(readRest), 8 - h.buf.bitI))
  {
    AfterRBitNext(h, s);
  }

  /** Ticks of the data read state fill the rest of byte `byteI`, bit
      `bitI + i` from the third sample of slot `i`, then move to the next
      byte, or go idle after the last one. */
  lemma {:induction false} DataRByte(h: Handle, s: seq<bool>, readRest: nat)
    requires Valid(h) && h.state == DataR && h.buf.tmp == 0
    requires |s| == 3 * (8 - h.buf.bitI)
    ensures Run(h, s, readRest) == Step(NextR(h, FillBits(h.buf.data[h.buf.byteI], h.buf.bitI, s)),
                                        Slots(DataRIo(readRest), 8 - h.buf.bitI))
    decreases |s|
  {
    var b := h.buf;
    if b.bitI < 7 {
      var m := AfterRBit(h, s[2]);
      AfterRBitNext(h, s);
      DataRByte(m, s[3..], readRest);
      DataRStep(h, s, readRest, NextR(m, FillBits(m.buf.data[m.buf.byteI], m.buf.bitI, s[3..])), 8 - m.buf.bitI);
      DataRClose(Run(h, s, readRest), h, s, readRest);
    } else {
      DataRSlot(h, s, readRest);
      assert s[..3] == s;
      assert FillBits(b.data[b.byteI], 7, s) == Sampled(b.data[b.byteI], 7, s[2]);
      assert Slots(DataRIo(readRest), 1) == DataRIo(readRest) + [];
    }
  }

  /** `n + m` slots are `n` slots followed by `m`. */
  lemma {:induction false} SlotsAppend(io: seq<Effect>, n: nat, m: nat)
    ensures Slots(io, n + m) == Slots(io, n) + Slots(io, m)
    decreases n
  {
    if n > 0 {
      SlotsAppend(io, n - 1, m);
    }
  }

  /** The handle after the data read of bytes `byteI..rLen`: the bytes
      filled, the read over and the machine idle. */
  function BytesR(h: Handle, s: seq<bool>): Handle
    requires Valid(h) && h.state == DataR
    requires |s| == 24 * (h.buf.rLen - h.buf.byteI)
  {
    var b := h.buf;
    h.(buf := b.(data := FillBytes(b.data, b.byteI, b.rLen, s), tmp := 0, bitI := 0, byteI := b.rLen), state := Idle)
  }

  /** Reading byte `byteI` leaves the read of the following bytes. */
  lemma {:induction false} NextRNext(h: Handle, s: seq<bool>)
    requires Valid(h) && h.state == DataR && h.buf.tmp == 0 && h.buf.bitI == 0
    requires h.buf.byteI + 1 < h.buf.rLen && |s| == 24 * (h.buf.rLen - h.buf.byteI)
    ensures var m := NextR(h, FillBits(h.buf.data[h.buf.byteI], 0, s[..24]));
            && m.state == DataR && m.buf.tmp == 0 && m.buf.bitI == 0
            && m.buf.rLen - m.buf.byteI == h.buf.rLen - h.buf.byteI - 1
            && |s[24..]| == 24 * (m.buf.rLen - m.buf.byteI)
            && BytesR(m, s[24..]) == BytesR(h, s)
  {
  }

  /** One response byte followed by `n` more that end at `e`. */
  lemma {:induction false} BytesRStep(h: Handle, s: seq<bool>, readRest: nat, e: Handle, n: nat)
    requires Valid(h) && h.state == DataR && h.buf.tmp == 0 && h.buf.bitI == 0 && 24 <= |s|
    requires Run(NextR(h, FillBits(h.buf.data[h.buf.byteI], 0, s[..24])), s[24..], readRest)
             == Step(e, Slots(DataRIo(readRest), 8 * n))
    ensures Run(h, s, readRest) == Step(e, Slots(DataRIo(readRest), 8 * (n + 1)))
  {
    DataRByte(h, s[..24], readRest);
    JoinBytes(h, s, readRest, DataRIo(readRest), NextR(h, FillBits(h.buf.data[h.buf.byteI], 0, s[..24])), e, n);
  }

  /** Eight slots with actions `io` to `m`, then `8 * n` more to `e`. */
  lemma {:induction false} JoinBytes(h: Handle, s: seq<bool>, readRest: nat, io: seq<Effect>, m: Handle, e: Handle, n: nat)
    requires Valid(h) && 24 <= |s| && Run(h, s[..24], readRest) == Step(m, Slots(io, 8))
    requires Valid(m) && Run(m, s[24..], readRest) == Step(e, Slots(io, 8 * n))
    ensures Run(h, s, readRest) == Step(e, Slots(io, 8 * (n + 1)))
  {
    SlotsBytes(io, n + 1);
    Compose(h, s, 24, readRest, Step(m, Slots(io, 8)), Step(e, Slots(io, 8 * n)));
  }

  /** `k` bytes of slots are one byte of slots, then `k - 1` more. */
  lemma {:induction false} SlotsBytes(io: seq<Effect>, k: nat)
    requires k >= 1
    ensures Slots(io, 8 * k) == Slots(io, 8) + Slots(io, 8 * (k - 1))
  {
    SlotsAppend(io, 8, 8 * (k - 1));
  }

  /** A response byte followed by the rest of the response is the response
      from that byte on. */
  lemma {:induction false} BytesRClose(r: Step, h: Handle, s: seq<bool>, readRest: nat)
    requires Valid(h) && h.state == DataR && h.buf.tmp == 0 && h.buf.bitI == 0
    requires h.buf.byteI + 1 < h.buf.rLen && |s| == 24 * (h.buf.rLen - h.buf.byteI)
    requires var m := NextR(h, FillBits(h.buf.data[h.buf.byteI], 0, s[..24]));
             && m.state == DataR && |s[24..]| == 24 * (m.buf.rLen - m.buf.byteI)
             && r == Step(BytesR(m, s[24..]), Slots(DataRIo(readRest), 8 * (m.buf.rLen - m.buf.byteI + 1)))
    ensures r == Step(BytesR(h, s), Slots(DataRIo(readRest), 8 * (h.buf.rLen - h.buf.byteI)))
  {
    NextRNext(h, s);
  }

  /** The last response byte ends the read. */
  lemma {:induction false} LastRByte(h: Handle, s: seq<bool>, readRest: nat)
    requires Valid(h) && h.state == DataR && h.buf.tmp == 0 && h.buf.bitI == 0
    requires h.buf.byteI + 1 == h.buf.rLen && |s| == 24
    ensures Run(h, s, readRest) == Step(BytesR(h, s), Slots(DataRIo(readRest), 8))
  {
    DataRByte(h, s, readRest);
    var b := h.buf;
    assert s[..24] == s;
    assert FillBytes(b.data, b.byteI, b.rLen, s) == b.data[b.byteI := FillBits(b.data[b.byteI], 0, s)];
  }

  /** From the start of response byte `byteI`, 24 ticks per byte fill the
      rest of the response in order and leave the machine idle. */
  lemma {:induction false} DataRBytes(h: Handle, s: seq<bool>, readRest: nat)
    requires Valid(h) && h.state == DataR && h.buf.tmp == 0 && h.buf.bitI == 0
    requires |s| == 24 * (h.buf.rLen - h.buf.byteI)
    ensures Run(h, s, readRest) == Step(BytesR(h, s), Slots(DataRIo(readRest), 8 * (h.buf.rLen - h.buf.byteI)))
    decreases |s|
  {
    if h.buf.byteI + 1 < h.buf.rLen {
      var m := NextR(h, FillBits(h.buf.data[h.buf.byteI], 0, s[..24]));
      NextRNext(h, s);
      DataRBytes(m, s[24..], readRest);
      BytesRStep(h, s, readRest, BytesR(m, s[24..]), m.buf.rLen - m.buf.byteI);
      BytesRClose(Run(h, s, readRest), h, s, readRest);
    } else {
      LastRByte(h, s, readRest);
    }
  }

  /** A read staged by a request: after `24 * rLen` ticks the machine is
      idle, and bit `j` of byte `k` of what `ow_resp_of_read` returns is the
      line level sampled in the third tick of read slot `8k + j`. */
  lemma {:induction false} DataRResponse(h: Handle, s: seq<bool>, readRest: nat)
    requires Reachable(h) && h.state == DataR && h.buf.tmp == 0 && h.buf.bitI == 0 && h.buf.byteI == 0
    requires |s| == 24 * h.buf.rLen
    ensures var r := Run(h, s, readRest);
            var resp := RespOfRead(r.h);
            && r.h.state == Idle
            && r.io == Slots(DataRIo(readRest), 8 * h.buf.rLen)
            && resp.0 == h.buf.rLen
            && forall k, j :: 0 <= k < resp.0 && 0 <= j < 8 ==> Bit(resp.1[k], j) == s[24 * k + 3 * j + 2]
  {
    DataRBytes(h, s, readRest);
    FilledFromClear(h.buf.data, h.buf.rLen, s);
    assert BytesR(h, s).buf.data == FillBytes(h.buf.data, 0, h.buf.rLen, s);
    Resp(Step(BytesR(h, s), Slots(DataRIo(readRest), 8 * h.buf.rLen)), h.buf, s);
  }

  /** The response bytes handed out from a filled region. */
  lemma {:induction false} Resp(r: Step, b: Buf, s: seq<bool>)
    requires |b.data| == MAX_DATA_LEN && b.rLen <= MAX_DATA_LEN && |s| == 24 * b.rLen
    requires Valid(r.h) && r.h.buf.rLen == b.rLen
    requires forall k, j :: 0 <= k < b.rLen && 0 <= j < 8 ==> Bit(r.h.buf.data[k], j) == s[24 * k + 3 * j + 2]
    ensures var resp := RespOfRead(r.h);
            forall k, j :: 0 <= k < resp.0 && 0 <= j < 8 ==> Bit(resp.1[k], j) == s[24 * k + 3 * j + 2]
  {
    var resp := RespOfRead(r.h);
    forall k, j | 0 <= k < resp.0 && 0 <= j < 8
      ensures Bit(resp.1[k], j) == s[24 * k + 3 * j + 2]
    {
      assert resp.1[k] == r.h.buf.data[k];
    }
  }

  /** Filling the first `n` bytes of a buffer that is clear from its start
      sets bit `j` of byte `k` to the third level of read slot `8k + j`. */
  lemma {:induction false} FilledFromClear(d: seq<bv8>, n: nat, s: seq<bool>)
    requires n <= |d| && |s| == 24 * n && ClearAfter(d, 0, 0)
    ensures var f := FillBytes(d, 0, n, s);
            forall k, j :: 0 <= k < n && 0 <= j < 8 ==> Bit(f[k], j) == s[24 * k + 3 * j + 2]
  {
    var f := FillBytes(d, 0, n, s);
    FillBytesAt(d, 0, n, s);
    forall k, j | 0 <= k < n && 0 <= j < 8
      ensures Bit(f[k], j) == s[24 * k + 3 * j + 2]
    {
      var t := ByteTicks(s, 0, k);
      assert f[k] == FillBits(d[k], 0, t);
      StartsClear(d, k);
      FillBitsBit(d[k], 0, t, j);
      assert t[3 * j + 2] == s[24 * k + 3 * j + 2];
    }
  }

  /** Every byte of a buffer clear from its start has no bit set. */
  lemma {:induction false} StartsClear(d: seq<bv8>, k: nat)
    requires ClearAfter(d, 0, 0) && k < |d|
    ensures ClearFrom(d[k], 0)
  {
    if k > 0 {
      assert d[k] == 0;
      forall j | 0 <= j < 8
        ensures !Bit(0, j)
      {
      }
    }
  }

  // Id read

  /** The actions of one read slot of the id read: pull low, release, then
      the rest of the slot. */
  function IdIo(readRest: nat): seq<Effect>
  {
    ReadLowIo + ReadReleaseIo + [SetPeriod(readRest)]
  }

  /** Where the id read goes after byte `byteI` of entry 0, whose final
      value is `x`: the next byte, or idle after byte 7. */
  function NextId(h: Handle, x: bv8): (r: Handle)
    requires Valid(h) && h.state == ReadRomId
    ensures Valid(r)
  {
    var b := h.buf;
    var ids := h.romIds[0 := h.romIds[0][b.byteI := x]];
    if b.byteI + 1 == 8 then h.(romIds := ids, buf := b.(tmp := 0, bitI := 0, byteI := 8), state := Idle)
    else h.(romIds := ids, buf := b.(tmp := 0, bitI := 0, byteI := b.byteI + 1))
  }

  /** The handle after the id read slot for bit `bitI` with sample `line`. */
  function AfterIdBit(h: Handle, line: bool): (r: Handle)
    requires Valid(h) && h.state == ReadRomId
    ensures Valid(r)
  {
    var b := h.buf;
    var x := Sampled(h.romIds[0][b.byteI], b.bitI, line);
    if b.bitI < 7 then h.(romIds := h.romIds[0 := h.romIds[0][b.byteI := x]], buf := b.(tmp := 0, bitI := b.bitI + 1))
    else NextId(h, x)
  }

  /** Three ticks of the id read are one read slot; the third sample is
      ORed into bit `bitI` of byte `byteI` of entry 0. */
  lemma {:induction false} IdSlot(h: Handle, s: seq<bool>, readRest: nat)
    requires Valid(h) && h.state == ReadRomId && h.buf.tmp == 0 && |s| >= 3
    ensures Run(h, s[..3], readRest) == Step(AfterIdBit(h, s[2]), IdIo(readRest))
  {
    var b := h.buf;
    Unroll3(h, s[..3], readRest);
    assert s[..3][3..] == [];
    assert s[..3][2] == s[2];
    assert h.romIds[0][b.byteI := h.romIds[0][b.byteI]] == h.romIds[0];
    assert h.romIds[0 := h.romIds[0]] == h.romIds;
    var t1 := Callback(h, s[0], readRest);
    var t2 := Callback(t1.h, s[1], readRest);
    var t3 := Callback(t2.h, s[2], readRest);
    assert t3.h == AfterIdBit(h, s[2]);
  }

  /** One id read slot followed by `n` more that end at `e`. */
  lemma {:induction false} IdStep(h: Handle, s: seq<bool>, readRest: nat, e: Handle, n: nat)
    requires Valid(h) && h.state == ReadRomId && h.buf.tmp == 0 && 3 <= |s|
    requires Run(AfterIdBit(h, s[2]), s[3..], readRest) == Step(e, Slots(IdIo(readRest), n))
    ensures Run(h, s, readRest) == Step(e, Slots(IdIo(readRest), n + 1))
  {
    IdSlot(h, s, readRest);
    Compose(h, s, 3, readRest, Step(AfterIdBit(h, s[2]), IdIo(readRest)), Step(e, Slots(IdIo(readRest), n)));
  }

  /** Below bit 7, the read of the rest of the id byte after one slot is the
      read of the rest of the byte. */
  lemma {:induction false} AfterIdBitNext(h: Handle, s: seq<bool>)
    requires Valid(h) && h.state == ReadRomId && h.buf.tmp == 0 && h.buf.bitI < 7
    requires |s| == 3 * (8 - h.buf.bitI)
    ensures var m := AfterIdBit(h, s[2]);
            && m.state == ReadRomId && m.buf.tmp == 0 && m.buf.bitI == h.buf.bitI + 1
            && |s[3..]| == 3 * (8 - m.buf.bitI)
            && NextId(m, FillBits(m.romIds[0][m.buf.byteI], m.buf.bitI, s[3..]))
               == NextId(h, FillBits(h.romIds[0][h.buf.byteI], h.buf.bitI, s))
  {
    var b := h.buf;
    var m := AfterIdBit(h, s[2]);
    var x := Sampled(h.romIds[0][b.byteI], b.bitI, s[2]);
    var y := FillBits(x, b.bitI + 1, s[3..]);
    assert m.romIds[0][m.buf.byteI] == x;
    assert m.romIds[0][b.byteI := y] == h.romIds[0][b.byteI := y];
    assert m.romIds[0 := m.romIds[0][b.byteI := y]] == h.romIds[0 := h.romIds[0][b.byteI := y]];
  }

  /** An id slot followed by the rest of the byte is the rest of the byte. */
  lemma {:induction false} IdClose(r: Step, h: Handle, s: seq<bool>, readRest: nat)
    requires Valid(h) && h.state == ReadRomId && h.buf.tmp == 0 && h.buf.bitI < 7
    requires |s| == 3 * (8 - h.buf.bitI)
    requires var m := AfterIdBit(h, s[2]);
             && m.state == ReadRomId && m.buf.bitI < 8
             && r == Step(NextId(m, FillBits(m.romIds[0][m.buf.byteI], m.buf.bitI, s[3..])),
                          Slots(IdIo(readRest), 8 - m.buf.bitI + 1))
    ensures r == Step(NextId(h, FillBits(h.romIds[0][h.buf.byteI], h.buf.bitI, s)), Slots(IdIo(readRest), 8 - h.buf.bitI))
  {
    AfterIdBitNext(h, s);
  }

  /** Ticks of the id read fill the rest of byte `byteI` of table entry 0,
      bit `bitI + i` from the third sample of slot `i`, then move to the
      next byte, or go idle after byte 7. */
  lemma {:induction false} IdByte(h: Handle, s: seq<bool>, readRest: nat)
    requires Valid(h) && h.state == ReadRomId && h.buf.tmp == 0
    requires |s| == 3 * (8 - h.buf.bitI)
    ensures Run(h, s, readRest) == Step(NextId(h, FillBits(h.romIds[0][h.buf.byteI], h.buf.bitI, s)),
                                        Slots(IdIo(readRest), 8 - h.buf.bitI))
    decreases |s|
  {
    var b := h.buf;
    if b.bitI < 7 {
      var m := AfterIdBit(h, s[2]);
      AfterIdBitNext(h, s);
      IdByte(m, s[3..], readRest);
      IdStep(h, s, readRest, NextId(m, FillBits(m.romIds[0][m.buf.byteI], m.buf.bitI, s[3..])), 8 - m.buf.bitI);
      IdClose(Run(h, s, readRest), h, s, readRest);
    } else {
      IdSlot(h, s, readRest);
      assert s[..3] == s;
      assert FillBits(h.romIds[0][b.byteI], 7, s) == Sampled(h.romIds[0][b.byteI], 7, s[2]);
      assert Slots(IdIo(readRest), 1) == IdIo(readRest) + [];
    }
  }

  /** The handle after the id read of bytes `byteI..8` of entry 0: the bytes
      filled, the read over and the machine idle. */
  function BytesId(h: Handle, s: seq<bool>): Handle
    requires Valid(h) && h.state == ReadRomId
    requires |s| == 24 * (8 - h.buf.byteI)
  {
    var b := h.buf;
    h.(romIds := h.romIds[0 := FillBytes(h.romIds[0], b.byteI, 8, s)], buf := b.(tmp := 0, bitI := 0, byteI := 8), state := Idle)
  }

  /** Reading id byte `byteI` leaves the read of the following bytes. */
  lemma {:induction false} NextIdNext(h: Handle, s: seq<bool>)
    requires Valid(h) && h.state == ReadRomId && h.buf.tmp == 0 && h.buf.bitI == 0
    requires h.buf.byteI + 1 < 8 && |s| == 24 * (8 - h.buf.byteI)
    ensures var m := NextId(h, FillBits(h.romIds[0][h.buf.byteI], 0, s[..24]));
            && m.state == ReadRomId && m.buf.tmp == 0 && m.buf.bitI == 0
            && 8 - m.buf.byteI == 8 - h.buf.byteI - 1
            && |s[24..]| == 24 * (8 - m.buf.byteI)
            && BytesId(m, s[24..]) == BytesId(h, s)
  {
    var b := h.buf;
    var x := FillBits(h.romIds[0][b.byteI], 0, s[..24]);
    var m := NextId(h, x);
    assert m.romIds[0 := FillBytes(m.romIds[0], b.byteI + 1, 8, s[24..])]
        == h.romIds[0 := FillBytes(h.romIds[0], b.byteI, 8, s)];
  }

  /** One id byte followed by `n` more that end at `e`. */
  lemma {:induction false} BytesIdStep(h: Handle, s: seq<bool>, readRest: nat, e: Handle, n: nat)
    requires Valid(h) && h.state == ReadRomId && h.buf.tmp == 0 && h.buf.bitI == 0 && 24 <= |s|
    requires Run(NextId(h, FillBits(h.romIds[0][h.buf.byteI], 0, s[..24])), s[24..], readRest)
             == Step(e, Slots(IdIo(readRest), 8 * n))
    ensures Run(h, s, readRest) == Step(e, Slots(IdIo(readRest), 8 * (n + 1)))
  {
    IdByte(h, s[..24], readRest);
    JoinBytes(h, s, readRest, IdIo(readRest), NextId(h, FillBits(h.romIds[0][h.buf.byteI], 0, s[..24])), e, n);
  }

  /** An id byte followed by the rest of the id is the id from that byte on. */
  lemma {:induction false} BytesIdClose(r: Step, h: Handle, s: seq<bool>, readRest: nat)
    requires Valid(h) && h.state == ReadRomId && h.buf.tmp == 0 && h.buf.bitI == 0
    requires h.buf.byteI + 1 < 8 && |s| == 24 * (8 - h.buf.byteI)
    requires var m := NextId(h, FillBits(h.romIds[0][h.buf.byteI], 0, s[..24]));
             && m.state == ReadRomId && |s[24..]| == 24 * (8 - m.buf.byteI)
             && r == Step(BytesId(m, s[24..]), Slots(IdIo(readRest), 8 * (8 - m.buf.byteI + 1)))
    ensures r == Step(BytesId(h, s), Slots(IdIo(readRest), 8 * (8 - h.buf.byteI)))
  {
    NextIdNext(h, s);
  }

  /** The last id byte ends the read. */
  lemma {:induction false} LastIdByte(h: Handle, s: seq<bool>, readRest: nat)
    requires Valid(h) && h.state == ReadRomId && h.buf.tmp == 0 && h.buf.bitI == 0
    requires h.buf.byteI == 7 && |s| == 24
    ensures Run(h, s, readRest) == Step(BytesId(h, s), Slots(IdIo(readRest), 8))
  {
    IdByte(h, s, readRest);
    var d := h.romIds[0];
    assert s[..24] == s;
    assert FillBytes(d, 7, 8, s) == d[7 := FillBits(d[7], 0, s)];
  }

  /** From the start of id byte `byteI`, 24 ticks per byte fill the rest of
      entry 0 in order and leave the machine idle. */
  lemma {:induction false} IdBytes(h: Handle, s: seq<bool>, readRest: nat)
    requires Valid(h) && h.state == ReadRomId && h.buf.tmp == 0 && h.buf.bitI == 0
    requires |s| == 24 * (8 - h.buf.byteI)
    ensures Run(h, s, readRest) == Step(BytesId(h, s), Slots(IdIo(readRest), 8 * (8 - h.buf.byteI)))
    decreases |s|
  {
    if h.buf.byteI + 1 < 8 {
      var m := NextId(h, FillBits(h.romIds[0][h.buf.byteI], 0, s[..24]));
      NextIdNext(h, s);
      IdBytes(m, s[24..], readRest);
      BytesIdStep(h, s, readRest, BytesId(m, s[24..]), 8 - m.buf.byteI);
      BytesIdClose(Run(h, s, readRest), h, s, readRest);
    } else {
      LastIdByte(h, s, readRest);
    }
  }

  /** `ow_read_id` once the READ ROM byte is sent: 192 ticks later the
      machine is idle, bit `j` of byte `k` of table entry 0 is the line level
      sampled in the third tick of read slot `8k + j`, the other entries,
      `rom_max` and the error are as they were, and no CRC is checked. */
  lemma {:induction false} IdRead(h: Handle, s: seq<bool>, readRest: nat)
    requires Reachable(h) && h.state == ReadRomId && h.buf.tmp == 0 && h.buf.bitI == 0 && h.buf.byteI == 0
    requires |s| == 192
    ensures var r := Run(h, s, readRest);
            && r.h.state == Idle && r.h.error == h.error && r.h.romMax == h.romMax
            && r.io == Slots(IdIo(readRest), 64)
            && (forall e :: 1 <= e < MAX_DEVICE ==> r.h.romIds[e] == h.romIds[e])
            && forall k, j :: 0 <= k < 8 && 0 <= j < 8 ==> Bit(r.h.romIds[0][k], j) == s[24 * k + 3 * j + 2]
  {
    IdBytes(h, s, readRest);
    FilledFromClear(h.romIds[0], 8, s);
    IdTable(Step(BytesId(h, s), Slots(IdIo(readRest), 64)), h, s);
  }

  /** The table after the id read. */
  lemma {:induction false} IdTable(r: Step, h: Handle, s: seq<bool>)
    requires Valid(h) && h.state == ReadRomId && h.buf.byteI == 0 && |s| == 192
    requires r.h == BytesId(h, s)
    requires forall k, j :: 0 <= k < 8 && 0 <= j < 8 ==> Bit(FillBytes(h.romIds[0], 0, 8, s)[k], j) == s[24 * k + 3 * j + 2]
    ensures r.h.state == Idle && r.h.error == h.error && r.h.romMax == h.romMax
    ensures forall e :: 1 <= e < MAX_DEVICE ==> r.h.romIds[e] == h.romIds[e]
    ensures forall k, j :: 0 <= k < 8 && 0 <= j < 8 ==> Bit(r.h.romIds[0][k], j) == s[24 * k + 3 * j + 2]
  {
    var d := FillBytes(h.romIds[0], 0, 8, s);
    assert r.h.romIds[0] == d;
    forall k, j | 0 <= k < 8 && 0 <= j < 8
      ensures Bit(r.h.romIds[0][k], j) == s[24 * k + 3 * j + 2]
    {
      assert r.h.romIds[0][k] == d[k];
      assert Bit(d[k], j) == s[24 * k + 3 * j + 2];
    }
  }
}
