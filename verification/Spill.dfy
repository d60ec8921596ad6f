/** How much progress text an undisturbed upload draws, and the largest file for which the host puts up with it. */
module Spill {
  import opened Bytes
  import opened Block0
  import opened Progress
  import S = Sender

  /** The progress lines of a file: one at each multiple of 16 blocks before its end. */
  function Lines(size: nat): nat
    requires size > 0
  {
    (size - 1) / EVERY
  }

  function Sum(f: nat -> nat, k: nat): nat {
    if k == 0 then 0 else Sum(f, k - 1) + f(k)
  }

  /** The length of each progress line. */
  function LineAt(size: nat): nat -> nat {
    (k: nat) => LineLength(EVERY * k, size)
  }

  function LinesLength(k: nat, size: nat): nat {
    Sum(LineAt(size), k)
  }

  /** The bytes that are no answers: one handshake byte and the progress lines. */
  function SpillOf(size: nat): nat
    requires size > 0
  {
    1 + LinesLength(Lines(size), size)
  }

  const LARGEST := 16_121_856

  // ---- larger files draw more text ----

  lemma {:induction false} MoreDigits(m: nat, n: nat)
    requires m <= n
    ensures |Digits(m)| <= |Digits(n)|
    decreases n
  {
    if n < 10 {
    } else if m < 10 {
    } else {
      MoreDigits(m / 10, n / 10);
    }
  }

  lemma {:induction false} MoreTerms(f: nat -> nat, g: nat -> nat, j: nat, k: nat)
    requires j <= k && forall i: nat :: f(i) <= g(i)
    ensures Sum(f, j) <= Sum(g, k)
    decreases k
  {
    if k == 0 {
    } else if j == k {
      MoreTerms(f, g, j - 1, k - 1);
    } else {
      MoreTerms(f, g, j, k - 1);
    }
  }

  lemma MoreLines(j: nat, k: nat, size: nat, size': nat)
    requires j <= k && size <= size'
    ensures LinesLength(j, size) <= LinesLength(k, size')
  {
    MoreDigits(size, size');
    MoreTerms(LineAt(size), LineAt(size'), j, k);
  }

  lemma MoreSpill(size: nat, size': nat)
    requires 0 < size <= size'
    ensures SpillOf(size) <= SpillOf(size')
  {
    MoreLines(Lines(size), Lines(size'), size, size');
  }

  // ---- the text of the largest file ----

  lemma PowersOfTen()
    ensures Pow10(3) == 1_000 && Pow10(4) == 10_000 && Pow10(5) == 100_000
    ensures Pow10(6) == 1_000_000 && Pow10(7) == 10_000_000 && Pow10(8) == 100_000_000
  {
    assert Pow10(2) == 100;
    assert Pow10(4) == 100 * Pow10(2);
    assert Pow10(6) == 100 * Pow10(4);
    assert Pow10(8) == 100 * Pow10(6);
  }

  lemma DigitCount(n: nat, d: nat)
    requires d >= 2 && Pow10(d - 1) <= n < Pow10(d)
    ensures |Digits(n)| == d
  {
    DigitsLength(n, d);
    DigitsLength(n, d - 1);
  }

  lemma OneMore(n: nat, len: nat)
    ensures (n + 1) * len == n * len + len
  {
  }

  lemma {:induction false} EqualTerms(f: nat -> nat, a: nat, b: nat, len: nat)
    requires a <= b && forall k: nat :: a < k <= b ==> f(k) == len
    ensures Sum(f, b) == Sum(f, a) + (b - a) * len
    decreases b
  {
    if a == b {
    } else {
      EqualTerms(f, a, b - 1, len);
      OneMore(b - 1 - a, len);
    }
  }

  /** Lines whose byte counts have `d` digits. */
  lemma SameLines(a: nat, b: nat, d: nat, size: nat)
    requires a <= b && d >= 2 && Pow10(d - 1) <= EVERY * (a + 1) && EVERY * b < Pow10(d)
    ensures LinesLength(b, size) == LinesLength(a, size) + (b - a) * (18 + d + |Digits(size)|)
  {
    forall k: nat | a < k <= b ensures LineAt(size)(k) == 18 + d + |Digits(size)| {
      DigitCount(EVERY * k, d);
    }
    EqualTerms(LineAt(size), a, b, 18 + d + |Digits(size)|);
  }

  /** The lines from `a` to `b` of a file of eight digits, whose byte counts have `d` digits. */
  lemma Stretch(a: nat, b: nat, d: nat, size: nat, low: nat, high: nat, gain: nat)
    requires a <= b && d >= 2 && |Digits(size)| == 8 && Pow10(d - 1) == low && Pow10(d) == high
    requires low <= EVERY * (a + 1) && EVERY * b < high && gain == (b - a) * (26 + d)
    ensures LinesLength(b, size) == LinesLength(a, size) + gain
  {
    SameLines(a, b, d, size);
  }

  lemma FourAndFive(zero: nat, one: nat, b: nat, size: nat)
    requires zero == 0 && one == 1 && b == 12 && |Digits(size)| == 8
    ensures LinesLength(b, size) == 371
  {
    PowersOfTen();
    Stretch(zero, one, 4, size, 1_000, 10_000, 30);
    Stretch(one, b, 5, size, 10_000, 100_000, 341);
  }

  lemma Sixes(b: nat, c: nat, size: nat)
    requires b == 12 && c == 122 && |Digits(size)| == 8
    ensures LinesLength(c, size) == LinesLength(b, size) + 3_520
  {
    PowersOfTen();
    Stretch(b, c, 6, size, 100_000, 1_000_000, 3_520);
  }

  lemma Sevens(c: nat, d: nat, size: nat)
    requires c == 122 && d == 1220 && |Digits(size)| == 8
    ensures LinesLength(d, size) == LinesLength(c, size) + 36_234
  {
    PowersOfTen();
    Stretch(c, d, 7, size, 1_000_000, 10_000_000, 36_234);
  }

  lemma Eights(d: nat, k: nat, size: nat)
    requires d == 1220 <= k < 12207 && |Digits(size)| == 8
    ensures LinesLength(k, size) == LinesLength(d, size) + (k - d) * 34
  {
    PowersOfTen();
    Stretch(d, k, 8, size, 10_000_000, 100_000_000, (k - d) * 34);
  }

  /** Byte counts have four digits in line 1, five up to line 12, six up to 122 and seven up to 1220. */
  lemma ShortCounts(zero: nat, one: nat, b: nat, c: nat, d: nat, size: nat)
    requires zero == 0 && one == 1 && b == 12 && c == 122 && d == 1220 && |Digits(size)| == 8
    ensures LinesLength(d, size) == 40_125
  {
    FourAndFive(zero, one, b, size);
    Sixes(b, c, size);
    Sevens(c, d, size);
  }

  lemma EightDigits(d: nat, k: nat, size: nat)
    requires d == 1220 <= k < 12207 && Pow10(7) <= size < Pow10(8)
    ensures LinesLength(k, size) == 40_125 + (k - d) * 34
  {
    DigitCount(size, 8);
    ShortCounts(0, 1, 12, 122, d, size);
    Eights(d, k, size);
  }

  lemma SpillOfEight(size: nat)
    requires 9_994_240 < size <= 99_999_744 && Pow10(7) <= size < Pow10(8)
    ensures SpillOf(size) == 40_126 + (Lines(size) - 1220) * 34
  {
    var d: nat :| d == 1220;
    EightDigits(d, Lines(size), size);
  }

  lemma AtTheLimit(size: nat)
    requires size == LARGEST
    ensures SpillOf(size) == 65_524 && SpillOf(size + 1) == 65_558
  {
    PowersOfTen();
    SpillOfEight(size);
    SpillOfEight(size + 1);
  }

  /** The host puts up with the progress text exactly up to a file of 16,121,856 bytes. */
  lemma SpillExact(size: nat)
    requires size > 0
    ensures SpillOf(size) <= S.SPILL_CAP <==> size <= LARGEST
  {
    var largest: nat :| largest == LARGEST;
    AtTheLimit(largest);
    if size <= LARGEST {
      MoreSpill(size, largest);
    } else {
      MoreSpill(largest + 1, size);
    }
  }
}
