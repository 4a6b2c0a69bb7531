/** The Dallas/Maxim CRC-8 of `ow_crc` (polynomial x^8 + x^5 + x^4 + 1,
    processed least significant bit first with the reflected constant 0x8C,
    initial value 0, no final XOR). Both driver revisions contain the same
    routine; this is the one functional definition of it. */
module Crc8 {

  const POLY: bv8 := 0x8C

  /** One pass of the inner loop: mix the low bits, shift both registers. */
  function Shift(crc: bv8, inbyte: bv8): (bv8, bv8)
  {
    var mix := (crc ^ inbyte) & 0x01;
    var c := crc >> 1;
    (if mix != 0 then c ^ POLY else c, inbyte >> 1)
  }

  /** The crc register after `n` more passes of the inner loop. */
  function Rounds(crc: bv8, inbyte: bv8, n: nat): bv8
    decreases n
  {
    if n == 0 then crc
    else
      var (c, b) := Shift(crc, inbyte);
      Rounds(c, b, n - 1)
  }

  /** The outer loop body: the eight passes for one input byte. */
  function UpdateByte(crc: bv8, b: bv8): bv8
  {
    Rounds(crc, b, 8)
  }

  /** The register after absorbing every byte of `s`, starting from `crc`. */
  function CrcFrom(crc: bv8, s: seq<bv8>): bv8
    decreases |s|
  {
    if |s| == 0 then crc else CrcFrom(UpdateByte(crc, s[0]), s[1..])
  }

  /** `ow_crc(data, len)` with `s == data[..len]`. */
  function Crc(s: seq<bv8>): (r: bv8)
    ensures |s| == 0 ==> r == 0
    ensures CrcFrom(0, s + [r]) == 0
  {
    var r := CrcFrom(0, s);
    CrcFromAppend(0, s, [r]);
    UpdateByteZero(r, r);
    assert CrcFrom(r, [r]) == CrcFrom(UpdateByte(r, r), []);
    r
  }

  /** One step of the linear feedback register seen through `crc ^ inbyte`. */
  function Lfsr(t: bv8): bv8
  {
    (t >> 1) ^ (if t & 0x01 != 0 then POLY else 0)
  }

  function LfsrN(t: bv8, n: nat): bv8
    decreases n
  {
    if n == 0 then t else LfsrN(Lfsr(t), n - 1)
  }

  /** The data register after `n` passes: `inbyte` shifted right `n` times. */
  function Drain(inbyte: bv8, n: nat): bv8
    decreases n
  {
    if n == 0 then inbyte else Drain(inbyte >> 1, n - 1)
  }

  lemma ShiftTracksXor(crc: bv8, inbyte: bv8)
    ensures Shift(crc, inbyte).0 ^ Shift(crc, inbyte).1 == Lfsr(crc ^ inbyte)
  {
  }

  /** After `n` passes the two registers still XOR to the feedback register
      started from `crc ^ inbyte`: the data byte only ever enters through
      that XOR. */
  lemma {:induction false} RoundsTrackXor(crc: bv8, inbyte: bv8, n: nat)
    ensures Rounds(crc, inbyte, n) ^ Drain(inbyte, n) == LfsrN(crc ^ inbyte, n)
    decreases n
  {
    if n > 0 {
      var c := Shift(crc, inbyte).0;
      var b := Shift(crc, inbyte).1;
      assert b == inbyte >> 1;
      ShiftTracksXor(crc, inbyte);
      RoundsTrackXor(c, b, n - 1);
      assert Rounds(crc, inbyte, n) == Rounds(c, b, n - 1);
      assert Drain(inbyte, n) == Drain(b, n - 1);
      assert LfsrN(crc ^ inbyte, n) == LfsrN(c ^ b, n - 1);
    }
  }

  /** Eight passes empty the data register. */
  lemma DrainEight(b: bv8)
    ensures Drain(b, 8) == 0
  {
    var b1 := b >> 1;
    var b2 := b1 >> 1;
    var b3 := b2 >> 1;
    var b4 := b3 >> 1;
    var b5 := b4 >> 1;
    var b6 := b5 >> 1;
    var b7 := b6 >> 1;
    var b8 := b7 >> 1;
    assert Drain(b7, 1) == b8 == 0;
    assert Drain(b5, 3) == Drain(b6, 2) == Drain(b7, 1);
    assert Drain(b2, 6) == Drain(b3, 5) == Drain(b4, 4) == Drain(b5, 3);
    assert Drain(b, 8) == Drain(b1, 7) == Drain(b2, 6);
  }

  lemma RoundsWhenDrained(crc: bv8, b: bv8, n: nat)
    requires Drain(b, n) == 0
    ensures Rounds(crc, b, n) == LfsrN(crc ^ b, n)
  {
    RoundsTrackXor(crc, b, n);
  }

  /** The per-byte update depends on the register and the byte only through
      their XOR. */
  lemma UpdateByteIsXor(crc: bv8, b: bv8)
    ensures UpdateByte(crc, b) == LfsrN(crc ^ b, 8)
    ensures UpdateByte(crc, b) == UpdateByte(0, crc ^ b)
  {
    var t := crc ^ b;
    DrainEight(b);
    RoundsWhenDrained(crc, b, 8);
    DrainEight(t);
    RoundsWhenDrained(0, t, 8);
    assert 0 ^ t == t;
  }

  lemma LfsrInjective(t: bv8)
    ensures Lfsr(t) == 0 <==> t == 0
  {
  }

  lemma {:induction false} LfsrNZero(t: bv8, n: nat)
    ensures LfsrN(t, n) == 0 <==> t == 0
    decreases n
  {
    if n > 0 {
      LfsrInjective(t);
      LfsrNZero(Lfsr(t), n - 1);
    }
  }

  /** A byte update lands on zero exactly when the byte equals the register. */
  lemma UpdateByteZero(crc: bv8, b: bv8)
    ensures UpdateByte(crc, b) == 0 <==> b == crc
  {
    UpdateByteIsXor(crc, b);
    LfsrNZero(crc ^ b, 8);
  }

  /** Absorbing `s` then `t` is absorbing `s + t`. */
  lemma {:induction false} CrcFromAppend(crc: bv8, s: seq<bv8>, t: seq<bv8>)
    ensures CrcFrom(crc, s + t) == CrcFrom(CrcFrom(crc, s), t)
    decreases |s|
  {
    if |s| > 0 {
      assert (s + t)[0] == s[0];
      assert (s + t)[1..] == s[1..] + t;
      CrcFromAppend(UpdateByte(crc, s[0]), s[1..], t);
    } else {
      assert s + t == t;
    }
  }

  /** Appending one byte is one more byte update. */
  lemma CrcSnoc(s: seq<bv8>, x: bv8)
    ensures Crc(s + [x]) == UpdateByte(Crc(s), x)
  {
    CrcFromAppend(0, s, [x]);
    assert [x][1..] == [];
  }

  /** The residue property: a run followed by its own CRC checks to zero,
      and its own CRC is the only trailing byte that does. */
  lemma CrcResidue(s: seq<bv8>, x: bv8)
    ensures Crc(s + [x]) == 0 <==> x == Crc(s)
  {
    CrcSnoc(s, x);
    UpdateByteZero(Crc(s), x);
  }

  /** An 8-byte ROM id carries a matching CRC byte exactly when the CRC over
      all eight bytes is zero. */
  lemma RomIdCheck(id: seq<bv8>)
    requires |id| == 8
    ensures Crc(id[..7]) == id[7] <==> Crc(id) == 0
  {
    assert id == id[..7] + [id[7]];
    CrcResidue(id[..7], id[7]);
  }

  /** One byte of a worked example, computed on the feedback register. */
  lemma ByteStep(crc: bv8, b: bv8, r: bv8)
    requires LfsrN(crc ^ b, 8) == r
    ensures UpdateByte(crc, b) == r
  {
    UpdateByteIsXor(crc, b);
  }

  /** The worked example of the Dallas/Maxim CRC application note: family
      0x02, serial 1C B8 01 00 00 00, CRC byte 0xA2. */
  lemma KnownVector()
    ensures Crc([0x02, 0x1C, 0xB8, 0x01, 0x00, 0x00, 0x00]) == 0xA2
    ensures Crc([0x02, 0x1C, 0xB8, 0x01, 0x00, 0x00, 0x00, 0xA2]) == 0
  {
    var s: seq<bv8> := [0x02, 0x1C, 0xB8, 0x01, 0x00, 0x00, 0x00];
    ByteStep(0x00, 0x02, 0xBC);
    ByteStep(0xBC, 0x1C, 0xAF);
    ByteStep(0xAF, 0xB8, 0x1E);
    ByteStep(0x1E, 0x01, 0xDC);
    ByteStep(0xDC, 0x00, 0xF4);
    ByteStep(0xF4, 0x00, 0x15);
    ByteStep(0x15, 0x00, 0xA2);
    assert CrcFrom(0xA2, []) == 0xA2;
    assert Crc(s) == 0xA2;
    CrcResidue(s, 0xA2);
    assert s + [0xA2] == [0x02, 0x1C, 0xB8, 0x01, 0x00, 0x00, 0x00, 0xA2];
  }
}
