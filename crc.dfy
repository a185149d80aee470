/**
 * The CRC-8 the sensor drivers use to check the bytes they read: MSB-first,
 * no reflection, an initial register value, a polynomial and a final XOR.
 * Bytes are `bv8`; the register is masked to eight bits after each byte, so
 * computing it in `bv8` throughout gives the same value.
 */
module Crc {
  type Byte = bv8

  const DefaultInit: Byte := 0x00
  const DefaultFinalXor: Byte := 0xFF
  const DefaultPolynomial: Byte := 0x31

  /** One shift of the register: shift left, and XOR the polynomial in when the top bit falls out. */
  function Step(crc: Byte, polynomial: Byte): Byte
  {
    if crc & 0x80 != 0 then (crc << 1) ^ polynomial else crc << 1
  }

  /** `k` shifts of the register. */
  function Steps(crc: Byte, polynomial: Byte, k: nat): Byte
  {
    if k == 0 then crc else Step(Steps(crc, polynomial, k - 1), polynomial)
  }

  /** The register after one more byte: XOR it in, then eight shifts. */
  function AddByte(crc: Byte, b: Byte, polynomial: Byte): Byte
  {
    Steps(crc ^ b, polynomial, 8)
  }

  /** The register after all of `data`, from `crc`. */
  function Register(crc: Byte, data: seq<Byte>, polynomial: Byte): Byte
  {
    if |data| == 0 then crc
    else AddByte(Register(crc, data[..|data| - 1], polynomial), data[|data| - 1], polynomial)
  }

  /** The CRC of `data`: the final register XOR the final value. */
  function Crc8Of(data: seq<Byte>, init: Byte, finalXor: Byte, polynomial: Byte): Byte
  {
    Register(init, data, polynomial) ^ finalXor
  }

  /** `crc8`: the byte loop with the eight-shift loop inside it. */
  method Crc8(data: seq<Byte>, init: Byte, finalXor: Byte, polynomial: Byte) returns (r: Byte)
    ensures r == Crc8Of(data, init, finalXor, polynomial)
  {
    var crc := init;
    for i := 0 to |data|
      invariant crc == Register(init, data[..i], polynomial)
    {
      assert data[..i + 1][..i] == data[..i];
      var start := crc ^ data[i];
      crc := start;
      for k := 0 to 8
        invariant crc == Steps(start, polynomial, k)
      {
        if crc & 0x80 != 0 {
          crc := (crc << 1) ^ polynomial;
        } else {
          crc := crc << 1;
        }
      }
    }
    assert data[..|data|] == data;
    r := crc ^ finalXor;
  }

  /** Processing a concatenation is processing its second part from where the first left the register. */
  lemma {:induction false} RegisterAppend(crc: Byte, a: seq<Byte>, b: seq<Byte>, polynomial: Byte)
    ensures Register(crc, a + b, polynomial) == Register(Register(crc, a, polynomial), b, polynomial)
  {
    if |b| == 0 {
      assert a + b == a;
    } else {
      assert (a + b)[..|a + b| - 1] == a + b[..|b| - 1];
      RegisterAppend(crc, a, b[..|b| - 1], polynomial);
    }
  }

  /** The CRC of no data is the initial value XOR the final value. */
  lemma EmptyData(init: Byte, finalXor: Byte, polynomial: Byte)
    ensures Crc8Of([], init, finalXor, polynomial) == init ^ finalXor
  {
  }

  /** A zero register stays zero whatever the shifts. */
  lemma {:induction false} StepsOfZero(polynomial: Byte, k: nat)
    ensures Steps(0, polynomial, k) == 0
  {
    if k > 0 {
      StepsOfZero(polynomial, k - 1);
      assert Step(0, polynomial) == 0;
    }
  }

  /** With an odd polynomial a shift loses nothing: the lowest bit tells whether the polynomial went in. */
  lemma StepInjective(x: Byte, y: Byte, polynomial: Byte)
    requires polynomial & 1 == 1
    requires Step(x, polynomial) == Step(y, polynomial)
    ensures x == y
  {
    var hx := x & 0x80 != 0;
    var hy := y & 0x80 != 0;
    assert Step(x, polynomial) & 1 == (if hx then 1 else 0);
    assert Step(y, polynomial) & 1 == (if hy then 1 else 0);
    assert hx == hy;
    assert x << 1 == y << 1;
  }

  lemma {:induction false} StepsInjective(x: Byte, y: Byte, polynomial: Byte, k: nat)
    requires polynomial & 1 == 1
    requires Steps(x, polynomial, k) == Steps(y, polynomial, k)
    ensures x == y
  {
    if k > 0 {
      StepInjective(Steps(x, polynomial, k - 1), Steps(y, polynomial, k - 1), polynomial);
      StepsInjective(x, y, polynomial, k - 1);
    }
  }

  /** One byte more: the register of `data + [b]` is that of `data` with `b` added. */
  lemma RegisterSnoc(crc: Byte, data: seq<Byte>, b: Byte, polynomial: Byte)
    ensures Register(crc, data + [b], polynomial) == AddByte(Register(crc, data, polynomial), b, polynomial)
  {
    assert (data + [b])[..|data|] == data;
  }

  /** With an odd polynomial, adding a byte zeroes the register exactly when the byte equals it. */
  lemma AddByteZeroIff(crc: Byte, b: Byte, polynomial: Byte)
    requires polynomial & 1 == 1
    ensures AddByte(crc, b, polynomial) == 0 <==> crc == b
  {
    StepsOfZero(polynomial, 8);
    if AddByte(crc, b, polynomial) == 0 {
      StepsInjective(crc ^ b, 0, polynomial, 8);
    }
  }

  /**
   * The residue property behind every CRC comparison: with no final XOR and an
   * odd polynomial, a received CRC byte equals the CRC of the data exactly when
   * the register over the data followed by that byte is zero.
   */
  lemma CrcMatchesIffZeroResidue(init: Byte, data: seq<Byte>, received: Byte, polynomial: Byte)
    requires polynomial & 1 == 1
    ensures Crc8Of(data, init, 0x00, polynomial) == received <==> Register(init, data + [received], polynomial) == 0
  {
    RegisterSnoc(init, data, received, polynomial);
    AddByteZeroIff(Register(init, data, polynomial), received, polynomial);
  }

  /** The worked example of the SHT3x data sheet (section 4.12): the CRC of 0xBE 0xEF is 0x92. */
  lemma Sht3xCheckExample()
    ensures Crc8Of([0xBE, 0xEF], 0xFF, 0x00, 0x31) == 0x92
  {
    assert [0xBE, 0xEF][..1] == [0xBE as Byte];
    assert [0xBE as Byte][..0] == [];
    assert AddByte(0xFF, 0xBE, 0x31) == 0x0C by {
      assert Steps(0x41, 0x31, 8) == 0x0C;
    }
    assert AddByte(0x0C, 0xEF, 0x31) == 0x92 by {
      assert Steps(0xE3, 0x31, 8) == 0x92;
    }
    assert Register(0xFF, [0xBE], 0x31) == 0x0C;
    assert Register(0xFF, [0xBE, 0xEF], 0x31) == 0x92;
  }
}
