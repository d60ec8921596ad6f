/** Packet numbers as bytes: the low eight bits of a number, and the number they stand for. */
module PacketNumber {
  import opened Bytes

  /** The last `n` bits of a number as a byte, and the number a byte stands for. */
  function Bits(i: nat, n: nat): Byte {
    if n == 0 then 0 else (Bits(i / 2, n - 1) << 1) | (if i % 2 == 1 then 1 else 0)
  }

  function ValueOf(b: Byte): nat {
    if b == 0 then 0 else 2 * ValueOf(b >> 1) + (if b & 1 == 1 then 1 else 0)
  }

  function LowByteOf(i: nat): Byte {
    Bits(i % 256, 8)
  }

  lemma ShiftIn(x: Byte, bit: Byte)
    requires x <= 0x7F && bit <= 1
    ensures ((x << 1) | bit) >> 1 == x && ((x << 1) | bit) & 1 == bit
  {
  }

  lemma FitsShifted(x: Byte, bit: Byte, n: nat)
    requires n < 8 && bit <= 1 && x <= Mask(n)
    ensures x <= 0x7F && (x << 1) | bit <= Mask(n + 1)
  {
  }

  function Mask(n: nat): Byte
    requires n <= 8
  {
    match n
    case 0 => 0 case 1 => 0x01 case 2 => 0x03 case 3 => 0x07
    case 4 => 0x0F case 5 => 0x1F case 6 => 0x3F case 7 => 0x7F case _ => 0xFF
  }

  function Size(n: nat): nat
    requires n <= 8
  {
    match n
    case 0 => 1 case 1 => 2 case 2 => 4 case 3 => 8
    case 4 => 16 case 5 => 32 case 6 => 64 case 7 => 128 case _ => 256
  }

  /** Shifting a bit in doubles the value. */
  lemma ValueShifted(x: Byte, bit: Byte)
    requires x <= 0x7F && bit <= 1
    ensures ValueOf((x << 1) | bit) == 2 * ValueOf(x) + (if bit == 1 then 1 else 0)
  {
    ShiftIn(x, bit);
    assert (x << 1) | bit == 0 ==> x == 0 && bit == 0;
  }

  lemma {:induction false} ValueOfBits(i: nat, n: nat)
    requires n <= 8 && i < Size(n)
    ensures Bits(i, n) <= Mask(n) && ValueOf(Bits(i, n)) == i
    decreases n
  {
    if n == 0 {
    } else {
      assert Size(n) == 2 * Size(n - 1);
      ValueOfBits(i / 2, n - 1);
      var x, bit: Byte := Bits(i / 2, n - 1), if i % 2 == 1 then 1 else 0;
      FitsShifted(x, bit, n - 1);
      ValueShifted(x, bit);
    }
  }

  lemma ValueOfLowByte(i: nat)
    ensures ValueOf(LowByteOf(i)) == i % 256
  {
    ValueOfBits(i % 256, 8);
  }

  lemma EvenNext(b: Byte)
    requires b & 1 == 0
    ensures (b + 1) >> 1 == b >> 1 && (b + 1) & 1 == 1 && b + 1 != 0
  {
  }

  lemma OddNext(b: Byte)
    requires b & 1 == 1 && b != 0xFF
    ensures (b + 1) >> 1 == (b >> 1) + 1 && (b + 1) & 1 == 0 && b + 1 != 0 && b >> 1 != 0xFF && b >> 1 < b
  {
  }

  lemma LowBit(b: Byte)
    ensures b & 1 == 0 || b & 1 == 1
  {
  }

  /** A byte stands for its number: zero for zero, and one more for the next byte. */
  lemma {:induction false} ValueCounts(b: Byte)
    requires b != 0xFF
    ensures ValueOf(0) == 0 && ValueOf(b + 1) == ValueOf(b) + 1
    decreases b
  {
    LowBit(b);
    if b & 1 == 0 {
      EvenNext(b);
    } else {
      OddNext(b);
      ValueCounts(b >> 1);
    }
  }
}
