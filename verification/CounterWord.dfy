/** The 32-bit block counter: increments from zero come back to a word only after 2^32 of them. */
module CounterWord {
  const MODULUS := 0x1_0000_0000

  /** What the proof uses of words: increment, half, lowest bit, and the largest word. */
  datatype Words<!W> = Words(next: W -> W, half: W -> W, odd: W -> bool, zero: W, max: W)

  ghost predicate Lawful<W(!new)>(a: Words<W>) {
    && (forall x :: !a.odd(x) ==> a.half(a.next(x)) == a.half(x) && a.odd(a.next(x)))
    && (forall x :: a.odd(x) && x != a.max ==> a.half(a.next(x)) == a.next(a.half(x)) && !a.odd(a.next(x)))
    && (forall x :: a.half(x) != a.max)
    && !a.odd(a.zero) && a.half(a.zero) == a.zero
  }

  /** The number in the lowest `k` bits of a word. */
  function Value<W>(a: Words<W>, w: W, k: nat): nat
    decreases k
  {
    if k == 0 then 0 else 2 * Value(a, a.half(w), k - 1) + if a.odd(w) then 1 else 0
  }

  /** The lowest `k` bits are all set. */
  predicate Ones<W>(a: Words<W>, w: W, k: nat)
    decreases k
  {
    k == 0 || (a.odd(w) && Ones(a, a.half(w), k - 1))
  }

  function Pow2(n: nat): (p: nat)
    ensures p >= 1
  {
    if n == 0 then 1 else 2 * Pow2(n - 1)
  }

  lemma {:induction false} OnesValue<W>(a: Words<W>, w: W, k: nat)
    requires Ones(a, w, k)
    ensures Value(a, w, k) == Pow2(k) - 1
    decreases k
  {
    if k == 0 {
    } else {
      OnesValue(a, a.half(w), k - 1);
    }
  }

  /** An increment that does not wrap adds one. */
  lemma {:induction false} NextValue<W(!new)>(a: Words<W>, w: W, k: nat)
    requires Lawful(a) && w != a.max && !Ones(a, w, k)
    ensures Value(a, a.next(w), k) == Value(a, w, k) + 1
    decreases k
  {
    if a.odd(w) {
      NextValue(a, a.half(w), k - 1);
    } else {
      assert a.half(a.next(w)) == a.half(w) && a.odd(a.next(w));
    }
  }

  lemma {:induction false} ZeroValue<W(!new)>(a: Words<W>, k: nat)
    requires Lawful(a)
    ensures Value(a, a.zero, k) == 0
  {
    if k == 0 {
    } else {
      ZeroValue(a, k - 1);
    }
  }

  function Times<W>(a: Words<W>, n: nat): W {
    if n == 0 then a.zero else a.next(Times(a, n - 1))
  }

  ghost predicate Counted<W>(a: Words<W>, k: nat, n: nat) {
    Value(a, Times(a, n), k) == n
  }

  lemma NothingCounted<W(!new)>(a: Words<W>, k: nat)
    requires Lawful(a)
    ensures Counted(a, k, 0)
  {
    ZeroValue(a, k);
  }

  lemma NextCounted<W(!new)>(a: Words<W>, k: nat, w: W)
    requires Lawful(a) && Ones(a, a.max, k) && Value(a, w, k) < Pow2(k) - 1
    ensures Value(a, a.next(w), k) == Value(a, w, k) + 1
  {
    OnesValue(a, a.max, k);
    if Ones(a, w, k) { OnesValue(a, w, k); }
    NextValue(a, w, k);
  }

  lemma OneMoreCounted<W(!new)>(a: Words<W>, k: nat, n: nat)
    requires Lawful(a) && Ones(a, a.max, k) && Counted(a, k, n) && n + 1 < Pow2(k)
    ensures Counted(a, k, n + 1)
  {
    NextCounted(a, k, Times(a, n));
  }

  /** Fewer than `2^k` increments are all counted. */
  lemma {:induction false} AllCounted<W(!new)>(a: Words<W>, k: nat, n: nat)
    requires Lawful(a) && Ones(a, a.max, k) && n < Pow2(k)
    ensures Counted(a, k, n)
    decreases n
  {
    if n == 0 {
      NothingCounted(a, k);
    } else {
      AllCounted(a, k, n - 1);
      OneMoreCounted(a, k, n - 1);
    }
  }

  lemma TimesInjective<W(!new)>(a: Words<W>, k: nat, m: nat, n: nat)
    requires Lawful(a) && Ones(a, a.max, k) && m < Pow2(k) && n < Pow2(k)
    ensures Times(a, m) == Times(a, n) <==> m == n
  {
    AllCounted(a, k, m);
    AllCounted(a, k, n);
  }

  // ---- words of 32 bits ----

  /** The lowest `n` bits. */
  function Mask(n: nat): bv32
    requires n <= 32
  {
    match n
    case 0 => 0x0 case 1 => 0x1 case 2 => 0x3 case 3 => 0x7
    case 4 => 0xF case 5 => 0x1F case 6 => 0x3F case 7 => 0x7F
    case 8 => 0xFF case 9 => 0x1FF case 10 => 0x3FF case 11 => 0x7FF
    case 12 => 0xFFF case 13 => 0x1FFF case 14 => 0x3FFF case 15 => 0x7FFF
    case 16 => 0xFFFF case 17 => 0x1FFFF case 18 => 0x3FFFF case 19 => 0x7FFFF
    case 20 => 0xFFFFF case 21 => 0x1FFFFF case 22 => 0x3FFFFF case 23 => 0x7FFFFF
    case 24 => 0xFFFFFF case 25 => 0x1FFFFFF case 26 => 0x3FFFFFF case 27 => 0x7FFFFFF
    case 28 => 0xFFFFFFF case 29 => 0x1FFFFFFF case 30 => 0x3FFFFFFF case 31 => 0x7FFFFFFF
    case _ => 0xFFFFFFFF
  }

  lemma MaskShifts(n: nat)
    requires 1 <= n <= 32
    ensures Odd(Mask(n)) && Half(Mask(n)) == Mask(n - 1)
  {
  }

  function Next(x: bv32): bv32 {
    x + 1
  }

  function Half(x: bv32): bv32 {
    x >> 1
  }

  function Odd(x: bv32): bool {
    x & 1 == 1
  }

  const WORDS := Words(Next, Half, Odd, 0 as bv32, 0xFFFF_FFFF)

  lemma EvenNext(x: bv32)
    ensures !Odd(x) ==> Half(Next(x)) == Half(x) && Odd(Next(x))
  {
  }

  lemma OddNext(x: bv32)
    ensures Odd(x) && x != 0xFFFF_FFFF ==> Half(Next(x)) == Next(Half(x)) && !Odd(Next(x))
    ensures Half(x) != 0xFFFF_FFFF
  {
  }

  lemma WordsLawful()
    ensures Lawful(WORDS)
  {
    forall x: bv32
      ensures !WORDS.odd(x) ==> WORDS.half(WORDS.next(x)) == WORDS.half(x) && WORDS.odd(WORDS.next(x))
    {
      EvenNext(x);
    }
    forall x: bv32
      ensures WORDS.odd(x) && x != WORDS.max ==>
                WORDS.half(WORDS.next(x)) == WORDS.next(WORDS.half(x)) && !WORDS.odd(WORDS.next(x))
      ensures WORDS.half(x) != WORDS.max
    {
      OddNext(x);
    }
  }

  lemma {:induction false} MaskOnes(n: nat)
    requires n <= 32
    ensures Ones(WORDS, Mask(n), n)
  {
    if n == 0 {
    } else {
      MaskShifts(n);
      MaskOnes(n - 1);
    }
  }

  /** The counter word after `n` increments from zero. */
  function Counter(n: nat): bv32 {
    Times(WORDS, n)
  }

  lemma FourMore(n: nat)
    ensures Pow2(n + 4) == 16 * Pow2(n)
  {
    assert Pow2(n + 2) == 4 * Pow2(n);
  }

  lemma FullPower()
    ensures Pow2(32) == MODULUS
  {
    assert Pow2(0) == 1;
    FourMore(0);
    FourMore(4);
    FourMore(8);
    FourMore(12);
    FourMore(16);
    FourMore(20);
    FourMore(24);
    FourMore(28);
  }

  lemma MaxOnes(k: nat, max: bv32)
    requires k == 32 && max == Mask(k)
    ensures Ones(WORDS, max, k)
  {
    MaskOnes(k);
  }

  /** Below 2^32 different numbers of increments give different words. */
  lemma CounterInjective(m: nat, n: nat)
    requires m < MODULUS && n < MODULUS
    ensures Counter(m) == Counter(n) <==> m == n
  {
    var k: nat :| k == 32;
    WordsLawful();
    FullPower();
    MaxOnes(k, WORDS.max);
    TimesInjective(WORDS, k, m, n);
  }
}
