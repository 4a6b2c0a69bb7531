/** `ow_crc` as the C code writes it: a byte loop around an eight-pass bit
    loop, with the register and the data byte updated in place. */
module CrcLoop {
  import Crc8

  /** `ow_crc(data, len)` with `len == |data|` (a `uint16_t` length). */
  method Compute(data: seq<bv8>) returns (crc: bv8)
    requires |data| < 0x1_0000
    ensures crc == Crc8.Crc(data)
    ensures forall x: bv8 :: Crc8.Crc(data + [x]) == 0 <==> x == crc
  {
    crc := 0;
    var k := 0;
    while k < |data|
      invariant 0 <= k <= |data|
      invariant crc == Crc8.Crc(data[..k])
    {
      var inbyte := data[k];
      var c0 := crc;
      var i := 8;
      while i > 0
        invariant 0 <= i <= 8
        invariant Crc8.Rounds(crc, inbyte, i) == Crc8.UpdateByte(c0, data[k])
      {
        var mix := (crc ^ inbyte) & 0x01;
        crc := crc >> 1;
        if mix != 0 {
          crc := crc ^ Crc8.POLY;
        }
        inbyte := inbyte >> 1;
        i := i - 1;
      }
      Crc8.CrcSnoc(data[..k], data[k]);
      assert data[..k + 1] == data[..k] + [data[k]];
      k := k + 1;
    }
    assert data[..k] == data;
    forall x: bv8 ensures Crc8.Crc(data + [x]) == 0 <==> x == crc {
      Crc8.CrcResidue(data, x);
    }
  }
}
