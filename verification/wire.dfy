/** Vocabulary shared by both driver revisions: the C integer widths, the
    bit operations on bytes, and the hardware actions a tick performs. */
module Wire {
  import opened OwConfig

  type u8 = x: int | 0 <= x < 0x100
  type u16 = x: int | 0 <= x < 0x1_0000
  type i8 = x: int | -0x80 <= x < 0x80

  datatype Option<+T> = None | Some(value: T)

  /** One hardware action, in program order. `Drive(true)` releases the
      open-drain line (pin set), `Drive(false)` pulls it low (pin reset);
      `SetPeriod` is the timer autoreload that decides when the next tick fires. */
  datatype Effect =
    | Drive(high: bool)
    | SetPeriod(ticks: nat)
    | TimerStart
    | TimerStop

  /** `b & (1 << i)` tested for non-zero. */
  function Bit(b: bv8, i: nat): bool
    requires i < 8
  {
    b & (1 << i) != 0
  }

  /** `b |= (1 << i)`: sets bit i and keeps every other bit. */
  function SetBit(b: bv8, i: nat): (r: bv8)
    requires i < 8
    ensures Bit(r, i)
    ensures forall j :: 0 <= j < 8 && j != i ==> Bit(r, j) == Bit(b, j)
  {
    b | (1 << i)
  }

  /** Bits `from..8` of `b` are all zero. */
  predicate ClearFrom(b: bv8, from: nat)
  {
    forall j :: from <= j < 8 ==> !Bit(b, j)
  }

  /** The bytes `memset` leaves behind. */
  function Zeros(n: nat): (r: seq<bv8>)
    ensures |r| == n
    ensures forall k :: 0 <= k < n ==> r[k] == 0
  {
    seq(n, _ => 0)
  }

  /** Period of the low half of a write slot: a 1 bit is a short pulse. */
  function WriteLowPeriod(one: bool): nat
  {
    if one then TIM_WRITE_LOW else TIM_WRITE_HIGH
  }

  /** Period of the released half of a write slot. */
  function WriteHighPeriod(one: bool): nat
  {
    if one then TIM_WRITE_HIGH else TIM_WRITE_LOW
  }

  /** The four actions of one complete write slot for a bit. */
  function SlotIo(one: bool): seq<Effect>
  {
    [SetPeriod(WriteLowPeriod(one)), Drive(false), SetPeriod(WriteHighPeriod(one)), Drive(true)]
  }

  /** Write slots for bits `from..8` of `b`, least significant bit first. */
  function ByteIo(b: bv8, from: nat): seq<Effect>
    requires from <= 8
    decreases 8 - from
  {
    if from == 8 then [] else SlotIo(Bit(b, from)) + ByteIo(b, from + 1)
  }

  /** Regrouping the effects of consecutive runs. */
  lemma Regroup(a: seq<Effect>, b: seq<Effect>, c: seq<Effect>)
    ensures a + (b + c) == (a + b) + c
  {
  }

  /** A byte after read slots for its bits `t..8`, three ticks per slot: a
      high third level of slot `i` sets bit `t + i`. */
  function FillBits(x: bv8, t: nat, s: seq<bool>): bv8
    requires t <= 8 && |s| == 3 * (8 - t)
    decreases |s|
  {
    if t == 8 then x else FillBits(if s[2] then SetBit(x, t) else x, t + 1, s[3..])
  }

  /** The fill of bits `t..8` keeps the bits below `t`. */
  lemma {:induction false} FillBitsKeep(x: bv8, t: nat, s: seq<bool>, j: nat)
    requires t <= 8 && |s| == 3 * (8 - t) && j < t
    ensures Bit(FillBits(x, t, s), j) == Bit(x, j)
    decreases 8 - t
  {
    if t < 8 {
      var x1 := if s[2] then SetBit(x, t) else x;
      assert Bit(x1, j) == Bit(x, j);
      FillBitsKeep(x1, t + 1, s[3..], j);
    }
  }

  /** A clear bit `j` of a byte being filled from bit `t` on ends up equal
      to the third level of read slot `j - t`. */
  lemma {:induction false} FillBitsBit(x: bv8, t: nat, s: seq<bool>, j: nat)
    requires t <= j < 8 && |s| == 3 * (8 - t) && !Bit(x, j)
    ensures Bit(FillBits(x, t, s), j) == s[3 * (j - t) + 2]
    decreases 8 - t
  {
    var x1 := if s[2] then SetBit(x, t) else x;
    if j == t {
      assert Bit(x1, t) == s[2];
      FillBitsKeep(x1, t + 1, s[3..], t);
    } else {
      assert !Bit(x1, j);
      FillBitsBit(x1, t + 1, s[3..], j);
      assert s[3..][3 * (j - (t + 1)) + 2] == s[3 * (j - t) + 2];
    }
  }

  /** Bytes `p..hi` after their read slots, 24 ticks per byte. */
  function FillBytes(d: seq<bv8>, p: nat, hi: nat, s: seq<bool>): (r: seq<bv8>)
    requires p <= hi <= |d| && |s| == 24 * (hi - p)
    ensures |r| == |d|
    decreases |s|
  {
    if p == hi then d else FillBytes(d[p := FillBits(d[p], 0, s[..24])], p + 1, hi, s[24..])
  }

  /** The 24 ticks of byte `q` in a region that starts at byte `p`. */
  function ByteTicks(s: seq<bool>, p: nat, q: nat): (r: seq<bool>)
    requires p <= q && 24 * (q - p + 1) <= |s|
    ensures |r| == 24
  {
    s[24 * (q - p)..24 * (q - p) + 24]
  }

  /** Filling bytes `p..hi` gives each its byte-level fill from its own 24
      ticks and keeps every other byte. */
  lemma {:induction false} FillBytesAt(d: seq<bv8>, p: nat, hi: nat, s: seq<bool>)
    requires p <= hi <= |d| && |s| == 24 * (hi - p)
    ensures forall q {:trigger FillBytes(d, p, hi, s)[q]} ::
              p <= q < hi ==> FillBytes(d, p, hi, s)[q] == FillBits(d[q], 0, ByteTicks(s, p, q))
    ensures forall k {:trigger FillBytes(d, p, hi, s)[k]} ::
              0 <= k < |d| && !(p <= k < hi) ==> FillBytes(d, p, hi, s)[k] == d[k]
    decreases hi - p
  {
    if p < hi {
      var d1 := d[p := FillBits(d[p], 0, s[..24])];
      var r := FillBytes(d, p, hi, s);
      assert r == FillBytes(d1, p + 1, hi, s[24..]);
      FillBytesAt(d1, p + 1, hi, s[24..]);
      forall q | p <= q < hi
        ensures r[q] == FillBits(d[q], 0, ByteTicks(s, p, q))
      {
        if q == p {
          assert r[p] == d1[p];
          assert ByteTicks(s, p, p) == s[..24];
        } else {
          assert d1[q] == d[q];
          assert ByteTicks(s[24..], p + 1, q) == ByteTicks(s, p, q);
        }
      }
      forall k | 0 <= k < |d| && !(p <= k < hi)
        ensures r[k] == d[k]
      {
        assert r[k] == d1[k];
      }
    }
  }
}
