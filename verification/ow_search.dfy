/** `ow_state_search`: the device-discovery machine of the current revision.
    Each scan is a reset, the 0xF0 command byte, then 64 rounds of
    "read bit, read complement, write the chosen bit". After the 64th round
    the assembled id is kept when its CRC matches, and a new scan starts
    until the device table is full. */
module OwSearch {
  import opened OwConfig
  import opened Wire
  import opened OwHandle
  import Crc8

  /** The candidate id being assembled in `data[1..9]`. */
  function Candidate(b: Buf): seq<bv8>
    requires |b.data| == BUF_LEN
  {
    b.data[1..9]
  }

  /** Phase 4: release after a command bit; after bit 7 go to the rounds. */
  function CmdRelease(h: Handle): (r: Step)
    requires Valid(h) && h.state == Search && h.buf.bitPh == 4
    ensures Valid(r.h) && r.h.state == Search && Untouched(h, r.h)
    ensures r.io == [SetPeriod(WriteHighPeriod(Bit(h.buf.data[0], h.buf.bitIdx))), Drive(true)]
    ensures h.buf.bitIdx < 7 ==> r.h == h.(buf := h.buf.(bitIdx := h.buf.bitIdx + 1, bitPh := 3))
    ensures h.buf.bitIdx == 7 ==> r.h == h.(buf := h.buf.(bitIdx := 0, bitPh := 5))
  {
    var b := h.buf;
    var io := [SetPeriod(WriteHighPeriod(Bit(b.data[0], b.bitIdx))), Drive(true)];
    var i := b.bitIdx + 1;
    if i == 8 then Step(h.(buf := b.(bitIdx := 0, bitPh := 5)), io)
    else Step(h.(buf := b.(bitIdx := i, bitPh := 3)), io)
  }

  /** Phase 7: the first read of a round, recorded as 0x01 or 0x00. */
  function FirstSample(h: Handle, line: bool): (r: Step)
    requires Valid(h) && h.state == Search && h.buf.bitPh == 7
    ensures Valid(r.h) && r.h.state == Search
  {
    Step(h.(searchVal := if line then 0x01 else 0x00, buf := h.buf.(bitPh := 8)), [SetPeriod(TIM_READ_HIGH)])
  }

  /** The branch choice of one search round, written as a table over the two
      reads (the bit, then its complement). */
  datatype Choice = Abort | Send(one: bool, found: u8, diffIdx: i8)

  function Rule(first: bool, second: bool, found: u8, diffIdx: i8, bit: u8): Choice
    requires bit < 64
  {
    if first && second then Abort
    else if first then Send(true, found, diffIdx)
    else if second then Send(false, found, diffIdx)
    else if found == 0 && bit > diffIdx then Send(false, 1, bit)
    else if found == 1 && bit == diffIdx then Send(true, 0, diffIdx)
    else Send(false, found, diffIdx)
  }

  /** Phase 10: the complement read ORs in 0x10, then the code picks the
      branch by rewriting `searchVal`; the value 0x01 afterwards means
      "send a 1". Both reads high means nobody answered: stop. */
  function Discrepancy(h: Handle, line: bool): (r: Step)
    requires Valid(h) && h.state == Search && h.buf.bitPh == 10
    ensures Valid(r.h)
    ensures match Rule(h.searchVal == 0x01, line, h.searchFound, h.searchDiffIdx, h.buf.bitIdx)
            case Abort => r.h.state == Idle && r.h.error == RomId
            case Send(one, f, d) =>
              && r.h.state == Search && r.h.error == h.error
              && (r.h.searchVal == 0x01 <==> one)
              && r.h.searchFound == f && r.h.searchDiffIdx == d
              && r.h.buf == h.buf.(bitPh := 11)
              && r.io == [SetPeriod(TIM_READ_HIGH)]
  {
    var v := h.searchVal | (if line then 0x10 else 0x00);
    var h1 := h.(searchVal := v, buf := h.buf.(bitPh := 11));
    var io := [SetPeriod(TIM_READ_HIGH)];
    if v == 0x00 then
      if h.searchFound == 0 && h.buf.bitIdx > h.searchDiffIdx then
        Step(h1.(searchFound := 1, searchDiffIdx := h.buf.bitIdx, searchVal := 0x10), io)
      else if h.searchFound == 1 && h.buf.bitIdx == h.searchDiffIdx then
        Step(h1.(searchFound := 0, searchVal := 0x01), io)
      else
        Step(h1, io)
    else if v == 0x11 then
      Fail(h1, RomId, io)
    else
      Step(h1, io)
  }

  /** Phase 11: pull low for the chosen bit; a 1 is also ORed into the
      candidate at bit `bitIdx % 8` of byte `1 + bitIdx / 8`. */
  function SendLow(h: Handle): (r: Step)
    requires Valid(h) && h.state == Search && h.buf.bitPh == 11
    ensures Valid(r.h) && r.h.state == Search && Untouched(h, r.h)
    ensures r.io == [SetPeriod(WriteLowPeriod(h.searchVal == 0x01)), Drive(false)]
    ensures CandBit(r.h.buf.data, h.buf.bitIdx) == (h.searchVal == 0x01)
    ensures forall q :: 0 <= q < 64 && q != h.buf.bitIdx ==> CandBit(r.h.buf.data, q) == CandBit(h.buf.data, q)
    ensures forall k :: 0 <= k < BUF_LEN && k != 1 + h.buf.bitIdx / 8 ==> r.h.buf.data[k] == h.buf.data[k]
    ensures r.h.buf == h.buf.(data := r.h.buf.data, bitPh := 12)
  {
    var b := h.buf;
    var one := h.searchVal == 0x01;
    var at := 1 + b.bitIdx / 8;
    var data := if one then b.data[at := SetBit(b.data[at], b.bitIdx % 8)] else b.data;
    SetCandBit(b.data, b.bitIdx);
    Step(h.(buf := b.(data := data, bitPh := 12)), [SetPeriod(WriteLowPeriod(one)), Drive(false)])
  }

  /** End of a 64-bit scan: keep the candidate when its CRC byte matches
      (without looking for it in the table), clear `data[1..]`, and finish
      once the table is full. */
  function ScanEnd(h: Handle, io: seq<Effect>): (r: Step)
    requires Valid(h) && h.state == Search && h.buf.bitPh == 12 && h.buf.bitIdx == 63
    ensures Valid(r.h)
    ensures r.io == io
    ensures r.h.error == h.error
    ensures CrcOk(Candidate(h.buf)) <==> r.h.romIdFound == h.romIdFound + 1
    ensures !CrcOk(Candidate(h.buf)) ==> r.h.romIdFound == h.romIdFound && r.h.romId == h.romId
    ensures CrcOk(Candidate(h.buf)) ==> r.h.romId == h.romId[h.romIdFound := Candidate(h.buf)]
    ensures r.h.buf == h.buf.(data := [h.buf.data[0]] + Zeros(BUF_LEN - 1), bitIdx := 0, bitPh := 0)
    ensures r.h.state == Done <==> r.h.romIdFound == MAX_DEVICE
    ensures r.h.state != Done ==> r.h.state == Search
  {
    var d := h.buf.data;
    var cand := d[1..9];
    assert cand[..7] == d[1..8] && cand[7] == d[8];
    var accept := Crc8.Crc(d[1..8]) == d[8];
    var romId := if accept then h.romId[h.romIdFound := cand] else h.romId;
    var n := if accept then h.romIdFound + 1 else h.romIdFound;
    Step(h.(buf := h.buf.(data := [d[0]] + Zeros(BUF_LEN - 1), bitIdx := 0, bitPh := 0),
            romId := romId, romIdFound := n,
            state := if n == MAX_DEVICE then Done else Search), io)
  }

  /** Phase 12: release for the rest of the slot; after the 64th round the
      scan ends and the next tick starts a new reset. */
  function SendRelease(h: Handle): (r: Step)
    requires Valid(h) && h.state == Search && h.buf.bitPh == 12
    ensures Valid(r.h)
  {
    var b := h.buf;
    var io := [SetPeriod(WriteHighPeriod(h.searchVal == 0x01)), Drive(true)];
    var i := b.bitIdx + 1;
    if i == 64 then ScanEnd(h, io)
    else Step(h.(buf := b.(bitIdx := i, bitPh := 5)), io)
  }

  /** One timer tick of a discovery. It keeps the handle invariant, never
      forgets a table entry, and fails only with a missing presence pulse or
      an all-high (1,1) read pair. */
  function SearchTick(h: Handle, line: bool): (r: Step)
    requires Valid(h) && h.state == Search
    ensures Valid(r.h)
    ensures r.h.state in {Search, Done, Idle}
    ensures h.romIdFound <= r.h.romIdFound <= h.romIdFound + 1
    ensures forall i :: 0 <= i < h.romIdFound ==> r.h.romId[i] == h.romId[i]
    ensures r.h.state == Idle ==> r.h.error in {Reset, RomId}
    ensures r.h.state != Idle ==> r.h.error == h.error
  {
    var b := h.buf;
    if b.bitPh <= 2 then ResetTick(h, line)
    else if b.bitPh == 3 then Advance(h, WriteLowPeriod(Bit(b.data[0], b.bitIdx)), false, 4)
    else if b.bitPh == 4 then CmdRelease(h)
    else if b.bitPh == 5 then Advance(h, TIM_READ_LOW, false, 6)
    else if b.bitPh == 6 then Advance(h, TIM_READ_SAMPLE, true, 7)
    else if b.bitPh == 7 then FirstSample(h, line)
    else if b.bitPh == 8 then Advance(h, TIM_READ_LOW, false, 9)
    else if b.bitPh == 9 then Advance(h, TIM_READ_SAMPLE, true, 10)
    else if b.bitPh == 10 then Discrepancy(h, line)
    else if b.bitPh == 11 then SendLow(h)
    else SendRelease(h)
  }
}
