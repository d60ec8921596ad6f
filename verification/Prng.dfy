/** The kernel's buffered random number generator over the ChaCha20 block function. */
module Prng {
  import opened Bytes
  import opened ChaCha
  import C = CounterWord

  const COUNTER_MODULUS := 0x1_0000_0000
  const BLOCKS_MODULUS := 0x1_0000_0000_0000_0000
  const RESEED_BLOCKS := 0x10_0000

  /**
   * Where the key material comes from: the seed, whether the CPU has a hardware generator, and the bytes it
   * delivers at each reseed, which may be fewer than a whole key.
   */
  datatype Source = Source(key: seq<Byte>, nonce: seq<Byte>, hardware: bool, drawn: nat -> seq<Byte>)

  type Seeded = src: Source | |src.key| == KEY_BYTES && |src.nonce| == NONCE_BYTES
    witness Source(seq(KEY_BYTES, _ => 0), seq(NONCE_BYTES, _ => 0), false, _ => [])

  /** The key with its front replaced by what the hardware delivered. */
  function Reseeded(key: seq<Byte>, drawn: seq<Byte>): (k: seq<Byte>)
    ensures |k| == |key|
  {
    if |drawn| <= |key| then drawn + key[|drawn|..] else drawn[..|key|]
  }

  /** The key of block `n`: replaced only before every block whose number is a multiple of 2^20. */
  function KeyAt(src: Seeded, n: nat): (k: seq<Byte>)
    ensures |k| == KEY_BYTES
  {
    if n == 0 then src.key
    else
      var k := KeyAt(src, n - 1);
      if src.hardware && n % RESEED_BLOCKS == 0 then Reseeded(k, src.drawn(n / RESEED_BLOCKS)) else k
  }

  /** Block `n` of the generator's output. */
  function BlockAt(src: Seeded, n: nat): (b: seq<Byte>)
    ensures |b| == BLOCK_BYTES
  {
    BlockLength(KeyAt(src, n), C.Counter(n % COUNTER_MODULUS), src.nonce);
    Block(KeyAt(src, n), C.Counter(n % COUNTER_MODULUS), src.nonce)
  }

  /** Blocks one after the other, byte by byte; a block of another length than 64 counts as zeros. */
  function Joined(blocks: nat -> seq<Byte>): nat -> Byte {
    (i: nat) =>
      var b := blocks(i / BLOCK_BYTES);
      if |b| == BLOCK_BYTES then b[i % BLOCK_BYTES] else 0
  }

  /** The output of the generator, byte by byte. */
  function Output(src: Seeded): nat -> Byte {
    Joined((n: nat) => BlockAt(src, n))
  }

  /** `n` values of a stream from position `from` on. */
  function Range<T>(stream: nat -> T, from: nat, n: nat): (s: seq<T>)
    ensures |s| == n
  {
    seq(n, i requires 0 <= i < n => stream(from + i))
  }

  /** The part of the generator's state that decides the next block. */
  datatype Core = Core(key: seq<Byte>, nonce: seq<Byte>, hardware: bool, drawn: nat -> seq<Byte>,
                       counter: nat, blocks: nat, reseeds: nat)

  /** The state after a block was made. */
  function Next(c: Core): Core {
    var blocks := (c.blocks + 1) % BLOCKS_MODULUS;
    var c' := c.(counter := (c.counter + 1) % COUNTER_MODULUS, blocks := blocks);
    if blocks % RESEED_BLOCKS == 0 && c.hardware
    then c'.(reseeds := c.reseeds + 1, key := Reseeded(c.key, c.drawn(c.reseeds + 1)))
    else c'
  }

  /** The state of a generator with seed `src` after `made` blocks. */
  ghost predicate Follows(c: Core, src: Seeded, made: nat) {
    && c.hardware == src.hardware && c.drawn == src.drawn && c.nonce == src.nonce && c.key == KeyAt(src, made)
    && c.counter == made % COUNTER_MODULUS && c.blocks == made % BLOCKS_MODULUS
    && (c.hardware ==> c.reseeds == made / RESEED_BLOCKS)
  }

  lemma StartFollows(src: Seeded)
    ensures Follows(Core(src.key, src.nonce, src.hardware, src.drawn, 0, 0, 0), src, 0)
  {
  }

  lemma NextFollows(c: Core, src: Seeded, made: nat)
    requires Follows(c, src, made)
    ensures Follows(Next(c), src, made + 1)
  {
    NextCounters(made);
  }

  /** A seed together with its output, which consists of the seed's blocks one after the other. */
  datatype SeedAndOutput = SeedAndOutput(src: Seeded, stream: nat -> Byte)

  type Plan = p: SeedAndOutput | Blockwise(p.stream, p.src)
    ghost witness (OutputIsBlockwise(NO_SEED); SeedAndOutput(NO_SEED, Output(NO_SEED)))

  const NO_SEED: Seeded := Source(seq(KEY_BYTES, _ => 0), seq(NONCE_BYTES, _ => 0), false, (n: nat) => [])

  ghost function PlanOf(src: Seeded): (p: Plan)
    ensures p.src == src && p.stream == Output(src)
  {
    OutputIsBlockwise(src);
    SeedAndOutput(src, Output(src))
  }

  class Generator {
    const buffer: array<Byte>
    var hardware: bool
    var drawn: nat -> seq<Byte>
    var key: seq<Byte>
    var nonce: seq<Byte>
    var counter: nat
    var position: nat
    var blocks: nat
    var reseeds: nat
    var initialized: bool
    /** The seed in use and its output; blocks generated and bytes handed out, without the machine's wrap-around. */
    ghost var plan: Plan
    ghost var made: nat
    ghost var given: nat

    ghost function Fields(): Core
      reads this
    {
      Core(key, nonce, hardware, drawn, counter, blocks, reseeds)
    }

    ghost predicate Sound()
      reads this
    {
      Follows(Fields(), plan.src, made) && buffer.Length == BLOCK_BYTES && position <= BLOCK_BYTES
    }

    /**
     * Before initialisation only the buffer is there. After it, the buffer holds the last block made, of which
     * `position` bytes have been handed out.
     */
    ghost predicate Valid()
      reads this, buffer
    {
      && buffer.Length == BLOCK_BYTES
      && (initialized ==>
            && Sound() && made >= 1
            && buffer[..] == Range(plan.stream, (made - 1) * BLOCK_BYTES, BLOCK_BYTES)
            && given == (made - 1) * BLOCK_BYTES + position)
    }

    constructor ()
      ensures Valid() && !initialized && fresh(buffer)
    {
      buffer := new Byte[BLOCK_BYTES](_ => 0);
      hardware, drawn := false, (n: nat) => [];
      key, nonce := seq(KEY_BYTES, _ => 0), seq(NONCE_BYTES, _ => 0);
      counter, position, blocks, reseeds, initialized := 0, 0, 0, 0, false;
    }

    /** `prng_next_block`: the next block, and a new key after every 2^20 of them. */
    method NextBlock()
      requires Sound()
      modifies this`key, this`counter, this`position, this`blocks, this`reseeds, this`made, buffer
      ensures Sound() && made == old(made) + 1 && position == 0
      ensures buffer[..] == Range(plan.stream, old(made) * BLOCK_BYTES, BLOCK_BYTES)
    {
      FillBuffer();
      NextFollows(Fields(), plan.src, made);
      Advance();
      made := made + 1;
    }

    method Advance()
      modifies this`key, this`counter, this`position, this`blocks, this`reseeds
      ensures Fields() == Next(old(Fields())) && position == 0
    {
      counter := (counter + 1) % COUNTER_MODULUS;
      blocks := (blocks + 1) % BLOCKS_MODULUS;
      position := 0;
      if blocks % RESEED_BLOCKS == 0 && hardware {
        reseeds := reseeds + 1;
        key := Reseeded(key, drawn(reseeds));
      }
    }

    method FillBuffer()
      requires Sound()
      modifies buffer
      ensures Sound() && buffer[..] == Range(plan.stream, made * BLOCK_BYTES, BLOCK_BYTES)
    {
      Chacha20Block(key, C.Counter(counter), nonce, buffer);
      assert buffer[..] == BlockAt(plan.src, made);
    }

    /** `random_init`, also when called again: a new seed, and its first block made at once. */
    method RandomInit(seed: Seeded, ghost plan: Plan)
      requires Valid() && plan.src == seed
      modifies this, buffer
      ensures Valid() && initialized && this.plan == plan && given == 0
    {
      TakeSeed(seed, plan);
      ghost var m := made;
      NextBlock();
      assert made - 1 == m;
      initialized := true;
    }

    method TakeSeed(seed: Seeded, ghost plan: Plan)
      requires buffer.Length == BLOCK_BYTES && plan.src == seed
      modifies this
      ensures Sound() && this.plan == plan && made == 0 && given == 0
    {
      this.plan, made, given := plan, 0, 0;
      hardware, drawn := seed.hardware, seed.drawn;
      counter, position, blocks, reseeds := 0, BLOCK_BYTES, 0, 0;
      key, nonce := seed.key, seed.nonce;
      StartFollows(seed);
    }

    /** Hands out the next `n` bytes of the buffer. */
    method TakeBytes(output: array<Byte>, at: nat, n: nat)
      requires Valid() && initialized && n <= BLOCK_BYTES - position && at + n <= output.Length && output != buffer
      modifies this`position, this`given, output
      ensures Valid() && initialized && given == old(given) + n
      ensures output[..at] == old(output[..at]) && output[at..at + n] == Range(plan.stream, old(given), n)
      ensures output[at + n..] == old(output[at + n..])
    {
      RangeSlice(plan.stream, (made - 1) * BLOCK_BYTES, BLOCK_BYTES, position, n);
      CopyBytes(buffer, position, output, at, n);
      position := position + n;
      given := given + n;
    }

    /** `random_fill`: zeros before initialisation, and then the next bytes of the stream. */
    method RandomFill(output: array<Byte>, length: nat)
      requires Valid() && length <= output.Length && output != buffer
      modifies this`key, this`counter, this`position, this`blocks, this`reseeds, this`made, this`given
      modifies buffer, output
      ensures Valid() && initialized == old(initialized)
      ensures !initialized ==> given == old(given) && output[..length] == seq(length, _ => 0)
      ensures initialized ==> given == old(given) + length && output[..length] == Range(plan.stream, old(given), length)
      ensures output[length..] == old(output[length..])
    {
      if !initialized {
        ZeroFill(output, length);
        return;
      }
      var done := 0;
      while done < length
        invariant 0 <= done <= length && Valid() && initialized && given == old(given) + done
        invariant output[..done] == Range(plan.stream, old(given), done)
        invariant output[length..] == old(output[length..])
        decreases length - done
      {
        var n := FillSome(output, done, length);
        RangeAppend(plan.stream, old(given), done, n);
        done := done + n;
      }
    }

    /** One request, answered in a buffer of its own. */
    method Answer(length: nat) returns (answer: seq<Byte>)
      requires Valid() && initialized
      modifies this`key, this`counter, this`position, this`blocks, this`reseeds, this`made, this`given
      modifies buffer
      ensures Valid() && initialized && given == old(given) + length
      ensures answer == Range(plan.stream, old(given), length)
    {
      var output := new Byte[length](_ => 0);
      RandomFill(output, length);
      answer := output[..];
      assert output[..length] == output[..];
    }

    /** As many bytes as the buffer has left, after a refill when it has none. */
    method FillSome(output: array<Byte>, done: nat, length: nat) returns (n: nat)
      requires Valid() && initialized && done < length <= output.Length && output != buffer
      modifies this`key, this`counter, this`position, this`blocks, this`reseeds, this`made, this`given
      modifies buffer, output
      ensures Valid() && initialized && 0 < n <= length - done && given == old(given) + n
      ensures output[..done + n] == old(output[..done]) + Range(plan.stream, old(given), n)
      ensures output[length..] == old(output[length..])
    {
      if position >= BLOCK_BYTES { NextBlock(); }
      var available := BLOCK_BYTES - position;
      n := if length - done < available then length - done else available;
      ghost var tail := output[done + n..];
      TakeBytes(output, done, n);
      assert output[length..] == tail[length - done - n..];
      assert output[..done + n] == output[..done] + output[done..done + n];
    }
  }

  /**
   * Any sequence of requests to one generator after its initialisation: together the answers are the ChaCha20
   * block stream of the seed from block 0 on, every byte once, however the requests are split.
   */
  method FillEach(seed: Seeded, lengths: seq<nat>) returns (answers: seq<seq<Byte>>)
    ensures |answers| == |lengths| && forall i :: 0 <= i < |lengths| ==> |answers[i]| == lengths[i]
    ensures Concat(answers) == Range(Output(seed), 0, Total(lengths))
  {
    var g := new Generator();
    ghost var plan := PlanOf(seed);
    ghost var stream := plan.stream;
    g.RandomInit(seed, plan);
    answers := [];
    for i := 0 to |lengths|
      invariant g.Valid() && g.initialized && g.plan == plan && fresh(g) && fresh(g.buffer)
      invariant g.given == Total(lengths[..i]) && |answers| == i
      invariant forall k :: 0 <= k < i ==> |answers[k]| == lengths[k]
      invariant Concat(answers) == Range(stream, 0, g.given)
    {
      var answer := g.Answer(lengths[i]);
      OneMoreAnswer(stream, lengths, i, answers, answer);
      assert answer == Range(stream, Total(lengths[..i]), lengths[i]);
      answers := answers + [answer];
    }
    assert lengths[..|lengths|] == lengths;
  }

  function Concat<T>(parts: seq<seq<T>>): seq<T> {
    if parts == [] then [] else Concat(parts[..|parts| - 1]) + parts[|parts| - 1]
  }

  lemma OneMoreAnswer<T>(stream: nat -> T, lengths: seq<nat>, i: nat, answers: seq<seq<T>>, answer: seq<T>)
    requires i < |lengths| && Concat(answers) == Range(stream, 0, Total(lengths[..i]))
    ensures Total(lengths[..i + 1]) == Total(lengths[..i]) + lengths[i]
    ensures answer == Range(stream, Total(lengths[..i]), lengths[i]) ==>
              Concat(answers + [answer]) == Range(stream, 0, Total(lengths[..i + 1]))
  {
    assert lengths[..i + 1][..i] == lengths[..i];
    assert (answers + [answer])[..|answers|] == answers;
    RangeAppend(stream, 0, Total(lengths[..i]), lengths[i]);
  }

  method ZeroFill(output: array<Byte>, length: nat)
    requires length <= output.Length
    modifies output
    ensures output[..length] == seq(length, _ => 0) && output[length..] == old(output[length..])
  {
    for i := 0 to length
      invariant forall k :: 0 <= k < i ==> output[k] == 0
      invariant output[length..] == old(output[length..])
    {
      output[i] := 0;
    }
  }

  method CopyBytes(from: array<Byte>, start: nat, to: array<Byte>, at: nat, n: nat)
    requires start + n <= from.Length && at + n <= to.Length && from != to
    modifies to
    ensures to[..at] == old(to[..at]) && to[at..at + n] == from[start..start + n] && to[at + n..] == old(to[at + n..])
  {
    for i := 0 to n
      invariant to[..at] == old(to[..at]) && to[at..at + i] == from[start..start + i]
                && to[at + i..] == old(to[at + i..])
    {
      to[at + i] := from[start + i];
    }
  }

  lemma WithinBlock(block: nat, offset: nat)
    requires offset < BLOCK_BYTES
    ensures (block * BLOCK_BYTES + offset) / BLOCK_BYTES == block
            && (block * BLOCK_BYTES + offset) % BLOCK_BYTES == offset
  {
  }

  /** The stream consists of the blocks, one after the other. */
  ghost predicate Blockwise(stream: nat -> Byte, src: Seeded) {
    forall n: nat {:trigger BlockAt(src, n)} :: Range(stream, n * BLOCK_BYTES, BLOCK_BYTES) == BlockAt(src, n)
  }

  lemma OutputIsBlockwise(src: Seeded)
    ensures Blockwise(Output(src), src)
  {
    var blocks := (n: nat) => BlockAt(src, n);
    forall n: nat ensures Range(Output(src), n * BLOCK_BYTES, BLOCK_BYTES) == BlockAt(src, n) {
      JoinedBlock(blocks, n);
    }
  }

  /** Block `n` is found in its place in the joined stream. */
  lemma JoinedBlock(blocks: nat -> seq<Byte>, n: nat)
    requires |blocks(n)| == BLOCK_BYTES
    ensures Range(Joined(blocks), n * BLOCK_BYTES, BLOCK_BYTES) == blocks(n)
  {
    var from, r := n * BLOCK_BYTES, Range(Joined(blocks), n * BLOCK_BYTES, BLOCK_BYTES);
    forall i: nat | i < BLOCK_BYTES ensures r[i] == blocks(n)[i] {
      WithinBlock(n, i);
      assert r[i] == Joined(blocks)(from + i);
    }
  }

  lemma RangeSlice<T>(stream: nat -> T, from: nat, n: nat, start: nat, k: nat)
    requires start + k <= n
    ensures Range(stream, from, n)[start..start + k] == Range(stream, from + start, k)
  {
  }

  lemma RangeAppend<T>(stream: nat -> T, from: nat, m: nat, n: nat)
    ensures Range(stream, from, m) + Range(stream, from + m, n) == Range(stream, from, m + n)
  {
  }

  lemma NextCounters(n: nat)
    ensures (n % COUNTER_MODULUS + 1) % COUNTER_MODULUS == (n + 1) % COUNTER_MODULUS
    ensures (n % BLOCKS_MODULUS + 1) % BLOCKS_MODULUS == (n + 1) % BLOCKS_MODULUS
    ensures (n + 1) % BLOCKS_MODULUS % RESEED_BLOCKS == (n + 1) % RESEED_BLOCKS
    ensures (n + 1) / RESEED_BLOCKS == n / RESEED_BLOCKS + if (n + 1) % RESEED_BLOCKS == 0 then 1 else 0
  {
    WrapKeepsResidue(n + 1);
  }

  lemma WrapKeepsResidue(n: nat)
    ensures n % BLOCKS_MODULUS % RESEED_BLOCKS == n % RESEED_BLOCKS
  {
  }

  // ---- any sequence of requests ----

  function Total(lengths: seq<nat>): nat {
    if lengths == [] then 0 else Total(lengths[..|lengths| - 1]) + lengths[|lengths| - 1]
  }

  /** The key stays the same between two multiples of 2^20 blocks, and always without a hardware generator. */
  lemma {:induction false} KeyChangesOnlyAtReseed(src: Seeded, n: nat, k: nat)
    requires !src.hardware || n % RESEED_BLOCKS + k < RESEED_BLOCKS
    ensures KeyAt(src, n + k) == KeyAt(src, n)
    decreases k
  {
    if k == 0 {
    } else {
      KeyChangesOnlyAtReseed(src, n, k - 1);
      if src.hardware { ResidueGrows(n, k); }
    }
  }

  /**
   * A reseed replaces the bytes of the key that the hardware delivered and keeps the others; it happens exactly before
   * every multiple of 2^20 blocks of a generator with hardware.
   */
  lemma ReseedLaw(src: Seeded, n: nat, j: nat)
    requires n > 0 && j < KEY_BYTES
    ensures var drawn := src.drawn(n / 0x10_0000);
            KeyAt(src, n)[j] == if src.hardware && n % 0x10_0000 == 0 && j < |drawn| then drawn[j]
                                else KeyAt(src, n - 1)[j]
    ensures KeyAt(src, 0) == src.key
  {
  }

  lemma ResidueGrows(n: nat, k: nat)
    requires n % RESEED_BLOCKS + k < RESEED_BLOCKS
    ensures (n + k) % RESEED_BLOCKS == n % RESEED_BLOCKS + k
  {
    var q := n / RESEED_BLOCKS;
    assert n + k == q * RESEED_BLOCKS + (n % RESEED_BLOCKS + k);
  }

  /** Block counters repeat only after 2^32 blocks. */
  lemma CounterFresh(m: nat, n: nat)
    requires m < n < m + COUNTER_MODULUS
    ensures m % COUNTER_MODULUS != n % COUNTER_MODULUS
  {
    var qm, qn := m / COUNTER_MODULUS, n / COUNTER_MODULUS;
    assert n - m == (qn - qm) * COUNTER_MODULUS + (n % COUNTER_MODULUS - m % COUNTER_MODULUS);
  }

  /** What the block function is given for block `n`, the nonce aside. */
  function Inputs(src: Seeded, n: nat): (seq<Byte>, Word) {
    (KeyAt(src, n), C.Counter(n % COUNTER_MODULUS))
  }

  lemma SameCounter(m: nat, n: nat)
    ensures C.Counter(m % COUNTER_MODULUS) == C.Counter(n % COUNTER_MODULUS)
            <==> m % COUNTER_MODULUS == n % COUNTER_MODULUS
  {
    C.CounterInjective(m % COUNTER_MODULUS, n % COUNTER_MODULUS);
  }

  lemma CounterRepeats(m: nat, n: nat)
    requires m < n
    ensures m % COUNTER_MODULUS == n % COUNTER_MODULUS <==> (n - m) % COUNTER_MODULUS == 0
  {
    var qm, qn := m / COUNTER_MODULUS, n / COUNTER_MODULUS;
    assert n - m == (qn - qm) * COUNTER_MODULUS + (n % COUNTER_MODULUS - m % COUNTER_MODULUS);
  }

  /** Two blocks share their inputs exactly when 2^32 divides their distance and the key is the same again. */
  lemma SharedInputs(src: Seeded, m: nat, n: nat)
    requires m < n
    ensures Inputs(src, m) == Inputs(src, n) <==> (n - m) % COUNTER_MODULUS == 0 && KeyAt(src, m) == KeyAt(src, n)
    ensures Inputs(src, m) == Inputs(src, n) ==> BlockAt(src, m) == BlockAt(src, n)
  {
    CounterRepeats(m, n);
    SameCounter(m, n);
    if Inputs(src, m) == Inputs(src, n) { SameBlock(src, m, n); }
  }

  lemma SameBlock(src: Seeded, m: nat, n: nat)
    requires Inputs(src, m) == Inputs(src, n)
    ensures BlockAt(src, m) == BlockAt(src, n)
  {
  }

  /** The inputs of the first `limit` blocks are pairwise different. */
  ghost predicate InputsDiffer(src: Seeded, limit: nat) {
    forall m: nat, n: nat :: m < n < limit ==> Inputs(src, m) != Inputs(src, n)
  }

  /** For every seed the first `limit` blocks have different inputs, exactly up to 2^32 blocks. */
  lemma DistinctInputsExact(limit: nat)
    ensures (forall src: Seeded :: InputsDiffer(src, limit)) <==> limit <= COUNTER_MODULUS
  {
    if limit <= COUNTER_MODULUS {
      forall src: Seeded, m: nat, n: nat | m < n < limit ensures Inputs(src, m) != Inputs(src, n) {
        CounterFresh(m, n);
        SameCounter(m, n);
      }
    } else {
      var src := NO_SEED;
      KeyChangesOnlyAtReseed(src, 0, COUNTER_MODULUS);
      SharedInputs(src, 0, COUNTER_MODULUS);
      assert !InputsDiffer(src, limit);
    }
  }
}
