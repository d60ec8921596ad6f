/** CRC-16 (polynomial 0x1021, initial value 0, no reflection): table-driven and bitwise. */
module Crc16 {
  import opened Bytes

  type Word = bv16

  // ---- iteration ----

  function Iterate<T>(f: T -> T, x: T, n: nat): T {
    if n == 0 then x else f(Iterate(f, x, n - 1))
  }

  lemma {:induction false} IterateDistributes<T>(f: T -> T, op: (T, T) -> T, x: T, y: T, n: nat)
    requires forall a, b :: f(op(a, b)) == op(f(a), f(b))
    ensures Iterate(f, op(x, y), n) == op(Iterate(f, x, n), Iterate(f, y, n))
  {
    if n == 0 {
    } else {
      IterateDistributes(f, op, x, y, n - 1);
    }
  }

  lemma {:induction false} IterateInjective<T>(f: T -> T, inverse: T -> T, x: T, y: T, n: nat)
    requires forall a :: inverse(f(a)) == a
    requires Iterate(f, x, n) == Iterate(f, y, n)
    ensures x == y
    decreases n
  {
    if n == 0 {
    } else {
      var a, b := Iterate(f, x, n - 1), Iterate(f, y, n - 1);
      assert inverse(f(a)) == a && inverse(f(b)) == b;
      IterateInjective(f, inverse, x, y, n - 1);
    }
  }

  lemma {:induction false} IterateSum<T>(f: T -> T, x: T, m: nat, n: nat)
    ensures Iterate(f, Iterate(f, x, m), n) == Iterate(f, x, m + n)
    decreases n
  {
    if n == 0 {
    } else {
      IterateSum(f, x, m, n - 1);
    }
  }

  // ---- the bitwise division of the host tools ----

  function ShiftStep(crc: Word): Word {
    if crc & 0x8000 != 0 then (crc << 1) ^ 0x1021 else crc << 1
  }

  function Xor(x: Word, y: Word): Word {
    x ^ y
  }

  /** A byte in the high half of a word. */
  function High(b: Byte): Word {
    (b as bv16) << 8
  }

  /** `n` steps of the division. */
  function Divide(crc: Word, n: nat): Word {
    Iterate(ShiftStep, crc, n)
  }

  function ByteStep(crc: Word, b: Byte): Word {
    Divide(Xor(crc, High(b)), 8)
  }

  /** The CRC of a message, starting from the remainder `crc`. */
  function CrcFrom(crc: Word, data: seq<Byte>): Word
    decreases |data|
  {
    if data == [] then crc else CrcFrom(ByteStep(crc, data[0]), data[1..])
  }

  function Crc(data: seq<Byte>): Word {
    CrcFrom(0, data)
  }

  /** Eight shift steps, as the inner loop of both implementations performs them. */
  method EightShifts(x: Word) returns (crc: Word)
    ensures crc == Divide(x, 8)
  {
    crc := x;
    for j := 0 to 8
      invariant crc == Divide(x, j)
    {
      crc := ShiftStep(crc);
    }
  }

  /** The host's bitwise loop. */
  method CrcBitwise(data: seq<Byte>) returns (crc: Word)
    ensures crc == Crc(data)
  {
    crc := 0;
    for i := 0 to |data|
      invariant CrcFrom(crc, data[i..]) == Crc(data)
    {
      assert data[i..][1..] == data[i + 1..];
      crc := EightShifts(Xor(crc, High(data[i])));
    }
    assert data[|data|..] == [];
  }

  // ---- the table of the receiver ----

  /** Entry `i` is the remainder of `i` shifted through eight steps. */
  function Entry(i: nat): Word
    requires i < 256
  {
    Divide(High(i as bv8), 8)
  }

  ghost predicate TableReady(table: array<Word>)
    reads table
  {
    table.Length == 256 && forall i :: 0 <= i < 256 ==> table[i] == Entry(i)
  }

  method InitTable(table: array<Word>)
    requires table.Length == 256
    modifies table
    ensures TableReady(table)
  {
    for i := 0 to 256
      invariant forall k :: 0 <= k < i ==> table[k] == Entry(k)
    {
      table[i] := EightShifts(High(i as bv8));
    }
  }

  function HighByte(crc: Word): Byte {
    HighByteFits(crc);
    (crc >> 8) as bv8
  }

  /** The receiver's update: one table look-up per byte. */
  method CrcUpdate(table: array<Word>, init: Word, data: seq<Byte>) returns (crc: Word)
    requires TableReady(table)
    ensures crc == CrcFrom(init, data)
  {
    crc := init;
    for i := 0 to |data|
      invariant CrcFrom(crc, data[i..]) == CrcFrom(init, data)
    {
      assert data[i..][1..] == data[i + 1..];
      var idx := HighByte(crc) ^ data[i];
      TableStep(crc, data[i]);
      IndexRoundTrip(idx);
      crc := Xor(crc << 8, table[idx as int]);
    }
    assert data[|data|..] == [];
    assert data[0..] == data;
  }

  // ---- facts about single words ----

  lemma HighByteFits(crc: Word)
    ensures (crc >> 8) < 256
  {
  }

  lemma IndexRoundTrip(b: Byte)
    ensures 0 <= b as int < 256
    ensures (b as int) as bv8 == b
  {
  }

  lemma XorShift(x: Word, y: Word)
    ensures (x ^ y) << 1 == (x << 1) ^ (y << 1)
  {
  }

  lemma XorTop(x: Word, y: Word)
    ensures (x ^ y) & 0x8000 == (x & 0x8000) ^ (y & 0x8000)
  {
  }

  lemma TopBit(x: Word)
    ensures x & 0x8000 == 0 || x & 0x8000 == 0x8000
  {
  }

  lemma XorCancel(x: Word, y: Word, p: Word)
    ensures (x ^ p) ^ (y ^ p) == x ^ y
  {
  }

  lemma XorOut(x: Word, y: Word, p: Word)
    ensures (x ^ p) ^ y == (x ^ y) ^ p
    ensures x ^ (y ^ p) == (x ^ y) ^ p
  {
  }

  lemma ShiftStepLinear(x: Word, y: Word)
    ensures ShiftStep(Xor(x, y)) == Xor(ShiftStep(x), ShiftStep(y))
  {
    XorShift(x, y);
    XorTop(x, y);
    TopBit(x);
    TopBit(y);
    XorCancel(x << 1, y << 1, 0x1021);
    XorOut(x << 1, y << 1, 0x1021);
  }

  function Unshift(crc: Word): Word {
    if crc & 1 != 0 then ((crc ^ 0x1021) >> 1) | 0x8000 else crc >> 1
  }

  lemma UnshiftHigh(x: Word, y: Word)
    requires x & 0x8000 != 0 && y == (x << 1) ^ 0x1021
    ensures y & 1 != 0 && ((y ^ 0x1021) >> 1) | 0x8000 == x
  {
  }

  lemma UnshiftLow(x: Word, y: Word)
    requires x & 0x8000 == 0 && y == x << 1
    ensures y & 1 == 0 && y >> 1 == x
  {
  }

  lemma ShiftInverseHigh(x: Word)
    requires x & 0x8000 != 0
    ensures Unshift(ShiftStep(x)) == x
  {
    UnshiftHigh(x, (x << 1) ^ 0x1021);
  }

  lemma ShiftInverseLow(x: Word)
    requires x & 0x8000 == 0
    ensures Unshift(ShiftStep(x)) == x
  {
    UnshiftLow(x, x << 1);
  }

  /** A shift step loses nothing: the polynomial's low bit records which branch was taken. */
  lemma ShiftInverse(x: Word)
    ensures Unshift(ShiftStep(x)) == x
  {
    if x & 0x8000 != 0 { ShiftInverseHigh(x); } else { ShiftInverseLow(x); }
  }

  /** The division is linear over exclusive or. */
  lemma DivideLinear(x: Word, y: Word, n: nat)
    ensures Divide(Xor(x, y), n) == Xor(Divide(x, n), Divide(y, n))
  {
    forall a, b ensures ShiftStep(Xor(a, b)) == Xor(ShiftStep(a), ShiftStep(b)) { ShiftStepLinear(a, b); }
    IterateDistributes(ShiftStep, Xor, x, y, n);
  }

  lemma DivideInjective(x: Word, y: Word, n: nat)
    requires Divide(x, n) == Divide(y, n)
    ensures x == y
  {
    forall a ensures Unshift(ShiftStep(a)) == a { ShiftInverse(a); }
    IterateInjective(ShiftStep, Unshift, x, y, n);
  }

  /** Two bytes as one word, the first one high. */
  function Pair(h: Byte, l: Byte): Word {
    Xor(High(h), l as bv16)
  }

  lemma LowShiftBits(x: Word)
    requires x & 0xFF00 == 0
    ensures x & 0x8000 == 0 && (x << 1) & 0x8000 == 0 && (x << 2) & 0x8000 == 0 && (x << 3) & 0x8000 == 0
    ensures (x << 4) & 0x8000 == 0 && (x << 5) & 0x8000 == 0 && (x << 6) & 0x8000 == 0 && (x << 7) & 0x8000 == 0
  {
  }

  lemma ShiftSums(x: Word)
    ensures (x << 1) << 1 == x << 2 && (x << 2) << 1 == x << 3 && (x << 3) << 1 == x << 4
    ensures (x << 4) << 1 == x << 5 && (x << 5) << 1 == x << 6 && (x << 6) << 1 == x << 7 && (x << 7) << 1 == x << 8
  {
  }

  lemma LowStep(x: Word)
    requires x & 0x8000 == 0
    ensures ShiftStep(x) == x << 1
  {
  }

  lemma DivideNext(x: Word, n: nat, y: Word, z: Word)
    requires Divide(x, n) == y && ShiftStep(y) == z
    ensures Divide(x, n + 1) == z
  {
  }

  /** A value that fits the low byte passes eight steps without a reduction. */
  lemma LowDivide(x: Word)
    requires x & 0xFF00 == 0
    ensures Divide(x, 8) == x << 8
  {
    LowShiftBits(x);
    ShiftSums(x);
    LowStep(x); LowStep(x << 1); LowStep(x << 2); LowStep(x << 3);
    LowStep(x << 4); LowStep(x << 5); LowStep(x << 6); LowStep(x << 7);
    DivideNext(x, 0, x, x << 1);
    DivideNext(x, 1, x << 1, x << 2);
    DivideNext(x, 2, x << 2, x << 3);
    DivideNext(x, 3, x << 3, x << 4);
    DivideNext(x, 4, x << 4, x << 5);
    DivideNext(x, 5, x << 5, x << 6);
    DivideNext(x, 6, x << 6, x << 7);
    DivideNext(x, 7, x << 7, x << 8);
  }

  lemma LowByteDivide(l: Byte)
    ensures Divide(l as bv16, 8) == High(l)
  {
    assert (l as bv16) & 0xFF00 == 0;
    LowDivide(l as bv16);
  }

  lemma SplitWord(crc: Word, h: Word, b: Word)
    requires h == crc >> 8
    ensures crc ^ (b << 8) == ((h ^ b) << 8) ^ (crc & 0xFF)
  {
  }

  lemma LowHalf(crc: Word)
    ensures (crc & 0xFF) & 0xFF00 == 0
    ensures (crc & 0xFF) << 8 == crc << 8
  {
  }

  lemma HighXor(crc: Word, b: Byte)
    ensures High(HighByte(crc) ^ b) == ((crc >> 8) ^ (b as bv16)) << 8
  {
  }

  lemma XorCommutes(x: Word, y: Word)
    ensures Xor(x, y) == Xor(y, x)
  {
  }

  /** One table look-up does the work of eight division steps. */
  lemma TableStep(crc: Word, b: Byte)
    ensures ByteStep(crc, b) == Xor(crc << 8, Divide(High(HighByte(crc) ^ b), 8))
  {
    var top := High(HighByte(crc) ^ b);
    TopAndLow(crc, b);
    DivideLinear(top, crc & 0xFF, 8);
    LowShifted(crc);
    XorCommutes(Divide(top, 8), crc << 8);
  }

  lemma TopAndLow(crc: Word, b: Byte)
    ensures Xor(crc, High(b)) == Xor(High(HighByte(crc) ^ b), crc & 0xFF)
  {
    HighXor(crc, b);
    SplitWord(crc, crc >> 8, b as bv16);
  }

  lemma LowShifted(crc: Word)
    ensures Divide(crc & 0xFF, 8) == crc << 8
  {
    LowHalf(crc);
    LowDivide(crc & 0xFF);
  }

  // ---- properties of the code ----

  /** The CRC of a concatenation continues from the CRC of the first part. */
  lemma {:induction false} CrcConcat(crc: Word, a: seq<Byte>, b: seq<Byte>)
    ensures CrcFrom(crc, a + b) == CrcFrom(CrcFrom(crc, a), b)
    decreases |a|
  {
    if a == [] {
      assert a + b == b;
    } else {
      assert (a + b)[1..] == a[1..] + b;
      CrcConcat(ByteStep(crc, a[0]), a[1..], b);
    }
  }

  lemma XorAssociates(x: Word, y: Word, z: Word)
    ensures Xor(Xor(x, y), z) == Xor(x, Xor(y, z))
  {
  }

  lemma XorInjective(x: Word, y: Word, z: Word)
    requires Xor(x, y) == Xor(x, z)
    ensures y == z
  {
  }

  lemma PairInjective(h: Byte, l: Byte, h': Byte, l': Byte)
    requires Pair(h, l) == Pair(h', l')
    ensures h == h' && l == l'
  {
  }

  /** Two message bytes are one sixteen-step division. */
  lemma TwoByteStep(crc: Word, h: Byte, l: Byte)
    ensures CrcFrom(crc, [h, l]) == Divide(Xor(crc, Pair(h, l)), 16)
  {
    var x := Xor(crc, High(h));
    assert [h, l][1..] == [l] && [l][1..] == [];
    assert CrcFrom(crc, [h, l]) == CrcFrom(Divide(x, 8), [l]);
    assert CrcFrom(Divide(x, 8), [l]) == CrcFrom(ByteStep(Divide(x, 8), l), []);
    LowByteDivide(l);
    DivideLinear(x, l as bv16, 8);
    IterateSum(ShiftStep, Xor(x, l as bv16), 8, 8);
    XorAssociates(crc, High(h), l as bv16);
  }

  lemma {:induction false} SuffixInjective(x: Word, y: Word, data: seq<Byte>)
    requires CrcFrom(x, data) == CrcFrom(y, data)
    ensures x == y
    decreases |data|
  {
    if data == [] {
    } else {
      SuffixInjective(ByteStep(x, data[0]), ByteStep(y, data[0]), data[1..]);
      DivideInjective(Xor(x, High(data[0])), Xor(y, High(data[0])), 8);
      XorCommutes(x, High(data[0]));
      XorCommutes(y, High(data[0]));
      XorInjective(High(data[0]), x, y);
    }
  }

  /** Two messages that differ within two adjacent bytes only have different CRCs. */
  lemma BurstDetected(a: seq<Byte>, b: seq<Byte>, i: nat)
    requires |a| == |b| && i + 2 <= |a| && a != b
    requires forall k :: 0 <= k < |a| && k != i && k != i + 1 ==> a[k] == b[k]
    ensures Crc(a) != Crc(b)
  {
    var head, tail := a[..i], a[i + 2..];
    var u, v := [a[i], a[i + 1]], [b[i], b[i + 1]];
    assert a == head + (u + tail) && b == head + (v + tail);
    CrcConcat(0, head, u + tail);
    CrcConcat(0, head, v + tail);
    var c := CrcFrom(0, head);
    CrcConcat(c, u, tail);
    CrcConcat(c, v, tail);
    if Crc(a) == Crc(b) {
      SuffixInjective(CrcFrom(c, u), CrcFrom(c, v), tail);
      SameTwoBytes(c, a[i], a[i + 1], b[i], b[i + 1]);
    }
  }

  lemma SameTwoBytes(crc: Word, h: Byte, l: Byte, h': Byte, l': Byte)
    requires CrcFrom(crc, [h, l]) == CrcFrom(crc, [h', l'])
    ensures h == h' && l == l'
  {
    TwoByteStep(crc, h, l);
    TwoByteStep(crc, h', l');
    DivideInjective(Xor(crc, Pair(h, l)), Xor(crc, Pair(h', l')), 16);
    XorInjective(crc, Pair(h, l), Pair(h', l'));
    PairInjective(h, l, h', l');
  }

  lemma DivideZero(n: nat)
    ensures Divide(0, n) == 0
  {
    if n > 0 { DivideZero(n - 1); }
  }

  lemma XorZero(x: Word, y: Word)
    ensures Xor(x, y) == 0 <==> x == y
  {
  }

  /** A message followed by two bytes has CRC zero exactly when the two bytes are its CRC, high byte first. */
  lemma ZeroResidue(data: seq<Byte>, h: Byte, l: Byte)
    ensures Crc(data + [h, l]) == 0 <==> Crc(data) == Pair(h, l)
  {
    CrcConcat(0, data, [h, l]);
    TwoByteStep(Crc(data), h, l);
    DivideZero(16);
    XorZero(Crc(data), Pair(h, l));
    if Crc(data + [h, l]) == 0 {
      DivideInjective(Xor(Crc(data), Pair(h, l)), 0, 16);
    }
  }

  /**
   * Damage confined to two adjacent bytes of a body and its CRC is always caught: at most one of two
   * such strings carries a matching CRC.
   */
  lemma DamageIsCaught(a: seq<Byte>, b: seq<Byte>, i: nat)
    requires |a| == |b| >= 2 && i + 2 <= |a| && a != b
    requires forall k :: 0 <= k < |a| && k != i && k != i + 1 ==> a[k] == b[k]
    requires var n := |a| - 2; Crc(a[..n]) == Pair(a[n], a[n + 1])
    ensures var n := |b| - 2; Crc(b[..n]) != Pair(b[n], b[n + 1])
  {
    var n := |a| - 2;
    assert a == a[..n] + [a[n], a[n + 1]] && b == b[..n] + [b[n], b[n + 1]];
    ZeroResidue(a[..n], a[n], a[n + 1]);
    ZeroResidue(b[..n], b[n], b[n + 1]);
    BurstDetected(a, b, i);
  }

  // ---- the check value ----

  lemma EightSteps(x: Word, a: Word, b: Word, c: Word, d: Word, e: Word, f: Word, g: Word, h: Word)
    requires ShiftStep(x) == a && ShiftStep(a) == b && ShiftStep(b) == c && ShiftStep(c) == d
    requires ShiftStep(d) == e && ShiftStep(e) == f && ShiftStep(f) == g && ShiftStep(g) == h
    ensures Divide(x, 8) == h
  {
    assert Divide(x, 2) == b;
    assert Divide(x, 4) == d;
    assert Divide(x, 6) == f;
  }

  lemma Digit1()
    ensures ByteStep(0x0000, 0x31) == 0x2672
  {
    assert Xor(0x0000, High(0x31)) == 0x3100;
    EightSteps(0x3100, 0x6200, 0xC400, 0x9821, 0x2063, 0x40C6, 0x818C, 0x1339, 0x2672);
  }

  lemma Digit2()
    ensures ByteStep(0x2672, 0x32) == 0x20B5
  {
    assert Xor(0x2672, High(0x32)) == 0x1472;
    EightSteps(0x1472, 0x28E4, 0x51C8, 0xA390, 0x5701, 0xAE02, 0x4C25, 0x984A, 0x20B5);
  }

  lemma Digit3()
    ensures ByteStep(0x20B5, 0x33) == 0x9752
  {
    assert Xor(0x20B5, High(0x33)) == 0x13B5;
    EightSteps(0x13B5, 0x276A, 0x4ED4, 0x9DA8, 0x2B71, 0x56E2, 0xADC4, 0x4BA9, 0x9752);
  }

  lemma Digit4()
    ensures ByteStep(0x9752, 0x34) == 0xD789
  {
    assert Xor(0x9752, High(0x34)) == 0xA352;
    EightSteps(0xA352, 0x5685, 0xAD0A, 0x4A35, 0x946A, 0x38F5, 0x71EA, 0xE3D4, 0xD789);
  }

  lemma Digit5()
    ensures ByteStep(0xD789, 0x35) == 0x546C
  {
    assert Xor(0xD789, High(0x35)) == 0xE289;
    EightSteps(0xE289, 0xD533, 0xBA47, 0x64AF, 0xC95E, 0x829D, 0x151B, 0x2A36, 0x546C);
  }

  lemma Digit6()
    ensures ByteStep(0x546C, 0x36) == 0x20E4
  {
    assert Xor(0x546C, High(0x36)) == 0x626C;
    EightSteps(0x626C, 0xC4D8, 0x9991, 0x2303, 0x4606, 0x8C0C, 0x0839, 0x1072, 0x20E4);
  }

  lemma Digit7()
    ensures ByteStep(0x20E4, 0x37) == 0x86D6
  {
    assert Xor(0x20E4, High(0x37)) == 0x17E4;
    EightSteps(0x17E4, 0x2FC8, 0x5F90, 0xBF20, 0x6E61, 0xDCC2, 0xA9A5, 0x436B, 0x86D6);
  }

  lemma Digit8()
    ensures ByteStep(0x86D6, 0x38) == 0x9015
  {
    assert Xor(0x86D6, High(0x38)) == 0xBED6;
    EightSteps(0xBED6, 0x6D8D, 0xDB1A, 0xA615, 0x5C0B, 0xB816, 0x600D, 0xC01A, 0x9015);
  }

  lemma Digit9()
    ensures ByteStep(0x9015, 0x39) == 0x31C3
  {
    assert Xor(0x9015, High(0x39)) == 0xA915;
    EightSteps(0xA915, 0x420B, 0x8416, 0x180D, 0x301A, 0x6034, 0xC068, 0x90F1, 0x31C3);
  }

  lemma CrcStep(crc: Word, data: seq<Byte>, b: Byte, rest: seq<Byte>, next: Word)
    requires data == [b] + rest && ByteStep(crc, b) == next
    ensures CrcFrom(crc, data) == CrcFrom(next, rest)
  {
    assert data[1..] == rest;
  }

  /** The check value of the variant: the CRC of the text `123456789` is 0x31C3. */
  lemma CheckValue(data: seq<Byte>)
    requires data == [0x31, 0x32, 0x33, 0x34, 0x35, 0x36, 0x37, 0x38, 0x39]
    ensures Crc(data) == 0x31C3
  {
    Digit1();
    CrcStep(0x0000, data, 0x31, data[1..], 0x2672);
    Digit2();
    CrcStep(0x2672, data[1..], 0x32, data[2..], 0x20B5);
    Digit3();
    CrcStep(0x20B5, data[2..], 0x33, data[3..], 0x9752);
    Digit4();
    CrcStep(0x9752, data[3..], 0x34, data[4..], 0xD789);
    Digit5();
    CrcStep(0xD789, data[4..], 0x35, data[5..], 0x546C);
    Digit6();
    CrcStep(0x546C, data[5..], 0x36, data[6..], 0x20E4);
    Digit7();
    CrcStep(0x20E4, data[6..], 0x37, data[7..], 0x86D6);
    Digit8();
    CrcStep(0x86D6, data[7..], 0x38, data[8..], 0x9015);
    Digit9();
    CrcStep(0x9015, data[8..], 0x39, data[9..], 0x31C3);
    assert data[9..] == [];
  }
}
