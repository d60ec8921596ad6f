/** The ChaCha20 block function (section 2.3 of RFC 8439), on an array of words in place. */
module ChaCha {
  import opened Bytes

  type Word = bv32

  const WORDS := 16
  const DOUBLE_ROUNDS := 10
  const KEY_BYTES := 32
  const NONCE_BYTES := 12
  const BLOCK_BYTES := 64

  datatype Four<T> = Four(a: T, b: T, c: T, d: T)

  function Rot16(x: Word): Word { (x << 16) | (x >> 16) }
  function Rot12(x: Word): Word { (x << 12) | (x >> 20) }
  function Rot8(x: Word): Word { (x << 8) | (x >> 24) }
  function Rot7(x: Word): Word { (x << 7) | (x >> 25) }

  /** The quarter round of section 2.1 of RFC 8439. */
  function Quarter(q: Four<Word>): Four<Word> {
    var a1 := q.a + q.b;
    var d1 := Rot16(q.d ^ a1);
    var c1 := q.c + d1;
    var b1 := Rot12(q.b ^ c1);
    var a2 := a1 + b1;
    var d2 := Rot8(d1 ^ a2);
    var c2 := c1 + d2;
    Four(a2, Rot7(b1 ^ c2), c2, d2)
  }

  /** The test vector of section 2.1.1 of RFC 8439. */
  lemma QuarterVector()
    ensures Quarter(Four(0x11111111, 0x01020304, 0x9b8d6f43, 0x01234567))
              == Four(0xea2a92f4, 0xcb1cf8ce, 0x4581472e, 0x5881c4bb)
  {
  }

  // ---- the state as a matrix of four rows; what the entries are does not matter here ----

  /** A round on the columns. */
  function Columns<T>(quarter: Four<T> -> Four<T>, s: seq<T>): (r: seq<T>)
    requires |s| == WORDS
    ensures |r| == WORDS
  {
    var p, q, r, t := quarter(Four(s[0], s[4], s[8], s[12])), quarter(Four(s[1], s[5], s[9], s[13])),
                      quarter(Four(s[2], s[6], s[10], s[14])), quarter(Four(s[3], s[7], s[11], s[15]));
    [p.a, q.a, r.a, t.a, p.b, q.b, r.b, t.b, p.c, q.c, r.c, t.c, p.d, q.d, r.d, t.d]
  }

  /** Row `k` rotated left by `k` places, which turns diagonals into columns. */
  function Skew<T>(s: seq<T>): (r: seq<T>)
    requires |s| == WORDS
    ensures |r| == WORDS
  {
    [s[0], s[1], s[2], s[3], s[5], s[6], s[7], s[4], s[10], s[11], s[8], s[9], s[15], s[12], s[13], s[14]]
  }

  function Unskew<T>(s: seq<T>): (r: seq<T>)
    requires |s| == WORDS
    ensures |r| == WORDS
  {
    [s[0], s[1], s[2], s[3], s[7], s[4], s[5], s[6], s[10], s[11], s[8], s[9], s[13], s[14], s[15], s[12]]
  }

  /** A round on the diagonals: skew, a round on the columns, and back. */
  function Diagonals<T>(quarter: Four<T> -> Four<T>, s: seq<T>): (r: seq<T>)
    requires |s| == WORDS
    ensures |r| == WORDS
  {
    Unskew(Columns(quarter, Skew(s)))
  }

  /** Column and diagonal rounds in turn. */
  function Rounds<T>(quarter: Four<T> -> Four<T>, s: seq<T>, n: nat): (r: seq<T>)
    requires |s| == WORDS
    ensures |r| == WORDS
  {
    if n == 0 then s else Diagonals(quarter, Columns(quarter, Rounds(quarter, s, n - 1)))
  }

  /** The quarter round on four entries, in place. */
  function QuarterAt<T>(quarter: Four<T> -> Four<T>, s: seq<T>, i: nat, j: nat, k: nat, l: nat): (r: seq<T>)
    requires |s| == WORDS && i < WORDS && j < WORDS && k < WORDS && l < WORDS
    ensures |r| == WORDS
  {
    var q := quarter(Four(s[i], s[j], s[k], s[l]));
    s[i := q.a][j := q.b][k := q.c][l := q.d]
  }

  lemma ColumnsInPlace<T>(quarter: Four<T> -> Four<T>, s: seq<T>)
    requires |s| == WORDS
    ensures QuarterAt(quarter, QuarterAt(quarter, QuarterAt(quarter, QuarterAt(quarter, s,
              0, 4, 8, 12), 1, 5, 9, 13), 2, 6, 10, 14), 3, 7, 11, 15) == Columns(quarter, s)
  {
  }

  lemma DiagonalsInPlace<T>(quarter: Four<T> -> Four<T>, s: seq<T>)
    requires |s| == WORDS
    ensures QuarterAt(quarter, QuarterAt(quarter, QuarterAt(quarter, QuarterAt(quarter, s,
              0, 5, 10, 15), 1, 6, 11, 12), 2, 7, 8, 13), 3, 4, 9, 14) == Diagonals(quarter, s)
  {
  }

  /** The rounds, updating the state in place. */
  method QuarterInPlace<T>(quarter: Four<T> -> Four<T>, s: array<T>, i: nat, j: nat, k: nat, l: nat)
    requires s.Length == WORDS && i < WORDS && j < WORDS && k < WORDS && l < WORDS
    modifies s
    ensures s[..] == QuarterAt(quarter, old(s[..]), i, j, k, l)
  {
    var q := quarter(Four(s[i], s[j], s[k], s[l]));
    s[i] := q.a;
    s[j] := q.b;
    s[k] := q.c;
    s[l] := q.d;
  }

  method ColumnRound<T>(quarter: Four<T> -> Four<T>, s: array<T>)
    requires s.Length == WORDS
    modifies s
    ensures s[..] == Columns(quarter, old(s[..]))
  {
    ColumnsInPlace(quarter, s[..]);
    QuarterInPlace(quarter, s, 0, 4, 8, 12);
    QuarterInPlace(quarter, s, 1, 5, 9, 13);
    QuarterInPlace(quarter, s, 2, 6, 10, 14);
    QuarterInPlace(quarter, s, 3, 7, 11, 15);
  }

  method DiagonalRound<T>(quarter: Four<T> -> Four<T>, s: array<T>)
    requires s.Length == WORDS
    modifies s
    ensures s[..] == Diagonals(quarter, old(s[..]))
  {
    DiagonalsInPlace(quarter, s[..]);
    QuarterInPlace(quarter, s, 0, 5, 10, 15);
    QuarterInPlace(quarter, s, 1, 6, 11, 12);
    QuarterInPlace(quarter, s, 2, 7, 8, 13);
    QuarterInPlace(quarter, s, 3, 4, 9, 14);
  }

  method AllRounds<T>(quarter: Four<T> -> Four<T>, s: array<T>, n: nat)
    requires s.Length == WORDS
    modifies s
    ensures s[..] == Rounds(quarter, old(s[..]), n)
  {
    var round: nat := 0;
    while round < n
      invariant round <= n && s[..] == Rounds(quarter, old(s[..]), round)
    {
      ColumnRound(quarter, s);
      DiagonalRound(quarter, s);
      round := round + 1;
    }
  }

  // ---- words, bytes and the block ----

  function Added<T>(plus: (T, T) -> T, w: seq<T>, s: seq<T>): (r: seq<T>)
    requires |w| == |s|
    ensures |r| == |w|
  {
    seq(|w|, i requires 0 <= i < |w| => plus(w[i], s[i]))
  }

  method AddInPlace<T>(plus: (T, T) -> T, w: array<T>, s: seq<T>)
    requires w.Length == |s|
    modifies w
    ensures w[..] == Added(plus, old(w[..]), s)
  {
    for i := 0 to w.Length
      invariant forall k :: 0 <= k < i ==> w[k] == plus(old(w[k]), s[k])
      invariant forall k :: i <= k < w.Length ==> w[k] == old(w[k])
    {
      w[i] := plus(w[i], s[i]);
    }
  }

  /** Four bytes per entry, one entry after the other. */
  function Serialized<T>(bytes: T -> seq<Byte>, w: seq<T>): seq<Byte> {
    if w == [] then [] else Serialized(bytes, w[..|w| - 1]) + bytes(w[|w| - 1])
  }

  ghost predicate FourBytes<T(!new)>(bytes: T -> seq<Byte>) {
    forall x :: |bytes(x)| == 4
  }

  lemma {:induction false} SerializedLength<T(!new)>(bytes: T -> seq<Byte>, w: seq<T>)
    requires FourBytes(bytes)
    ensures |Serialized(bytes, w)| == 4 * |w|
  {
    if w == [] {
    } else {
      SerializedLength(bytes, w[..|w| - 1]);
    }
  }

  method Serialize<T(!new)>(bytes: T -> seq<Byte>, w: array<T>, output: array<Byte>)
    requires FourBytes(bytes) && output.Length == 4 * w.Length && output as object != w
    modifies output
    ensures output[..] == Serialized(bytes, w[..])
  {
    var i := 0;
    while i < w.Length
      invariant 0 <= i <= w.Length && w[..] == old(w[..])
      invariant output[..4 * i] == Serialized(bytes, w[..i])
    {
      var b := bytes(w[i]);
      output[4 * i] := b[0];
      output[4 * i + 1] := b[1];
      output[4 * i + 2] := b[2];
      output[4 * i + 3] := b[3];
      assert w[..i + 1][..i] == w[..i];
      assert output[..4 * i + 4] == output[..4 * i] + b;
      i := i + 1;
    }
    assert w[..i] == w[..] && output[..4 * i] == output[..];
  }

  /** The entries of a byte string, four bytes each. */
  function Grouped<T>(entry: seq<Byte> -> T, b: seq<Byte>): (w: seq<T>)
    ensures |w| == |b| / 4
  {
    if |b| < 4 then [] else Grouped(entry, b[..|b| - 4]) + [entry(b[|b| - 4..])]
  }

  /** Grouping undoes serialising whenever it does so for single entries. */
  lemma {:induction false} GroupedSerialized<T(!new)>(bytes: T -> seq<Byte>, entry: seq<Byte> -> T, w: seq<T>)
    requires FourBytes(bytes) && forall x :: entry(bytes(x)) == x
    ensures Grouped(entry, Serialized(bytes, w)) == w
  {
    if w == [] {
    } else {
      var n := |w| - 1;
      GroupedSerialized(bytes, entry, w[..n]);
      SerializedLength(bytes, w[..n]);
      var b := Serialized(bytes, w);
      assert b[..|b| - 4] == Serialized(bytes, w[..n]) && b[|b| - 4..] == bytes(w[n]);
      assert w[..n] + [w[n]] == w;
    }
  }

  function Plus(x: Word, y: Word): Word { x + y }

  /** A little-endian word from its bytes; anything but four bytes gives zero. */
  function ToWord(b: seq<Byte>): Word {
    if |b| != 4 then 0
    else (b[0] as Word) | ((b[1] as Word) << 8) | ((b[2] as Word) << 16) | ((b[3] as Word) << 24)
  }

  function ToBytes(w: Word): (b: seq<Byte>)
    ensures |b| == 4
  {
    [(w & 0xff) as Byte, ((w >> 8) & 0xff) as Byte, ((w >> 16) & 0xff) as Byte, ((w >> 24) & 0xff) as Byte]
  }

  lemma WordRoundTrip(w: Word)
    ensures ToWord(ToBytes(w)) == w
  {
  }

  /** Serialised words read back as the same words. */
  lemma WordsRoundTrip(w: seq<Word>)
    ensures Grouped(ToWord, Serialized(ToBytes, w)) == w
  {
    forall x ensures ToWord(ToBytes(x)) == x { WordRoundTrip(x); }
    GroupedSerialized(ToBytes, ToWord, w);
  }

  const CONSTANTS: seq<Word> := [0x61707865, 0x3320646e, 0x79622d32, 0x6b206574]

  /** Constants, key, block counter and nonce (section 2.3 of RFC 8439). */
  function InitState(key: seq<Byte>, counter: Word, nonce: seq<Byte>): (s: seq<Word>)
    requires |key| == KEY_BYTES && |nonce| == NONCE_BYTES
    ensures |s| == WORDS
  {
    CONSTANTS + Grouped(ToWord, key) + [counter] + Grouped(ToWord, nonce)
  }

  function Block(key: seq<Byte>, counter: Word, nonce: seq<Byte>): seq<Byte>
    requires |key| == KEY_BYTES && |nonce| == NONCE_BYTES
  {
    var s := InitState(key, counter, nonce);
    Serialized(ToBytes, Added(Plus, Rounds(Quarter, s, DOUBLE_ROUNDS), s))
  }

  lemma BlockLength(key: seq<Byte>, counter: Word, nonce: seq<Byte>)
    requires |key| == KEY_BYTES && |nonce| == NONCE_BYTES
    ensures |Block(key, counter, nonce)| == BLOCK_BYTES
  {
    var s := InitState(key, counter, nonce);
    SerializedLength(ToBytes, Added(Plus, Rounds(Quarter, s, DOUBLE_ROUNDS), s));
  }

  /** The key and the nonce, four bytes at a time, into their places in the state. */
  method LoadWords<T>(entry: seq<Byte> -> T, b: seq<Byte>, s: array<T>, at: nat)
    requires |b| % 4 == 0 && at + |b| / 4 <= s.Length
    modifies s
    ensures s[..] == old(s[..at]) + Grouped(entry, b) + old(s[at + |b| / 4..])
  {
    var n := |b| / 4;
    ghost var before := s[..];
    ghost var words := Grouped(entry, b);
    var i := 0;
    while i < n
      invariant 0 <= i <= n
      invariant forall j :: 0 <= j < s.Length ==> s[j] == if at <= j < at + i then words[j - at] else before[j]
    {
      GroupedAt(entry, b, i);
      s[at + i] := entry(b[4 * i..4 * i + 4]);
      i := i + 1;
    }
  }

  lemma SliceOfFront(b: seq<Byte>, n: nat, lo: nat, hi: nat)
    requires lo <= hi <= n <= |b|
    ensures b[..n][lo..hi] == b[lo..hi]
  {
  }

  lemma {:induction false} GroupedAt<T>(entry: seq<Byte> -> T, b: seq<Byte>, i: nat)
    requires |b| % 4 == 0 && i < |b| / 4
    ensures Grouped(entry, b)[i] == entry(b[4 * i..4 * i + 4])
    decreases |b|
  {
    var front := b[..|b| - 4];
    var words := Grouped(entry, front);
    assert Grouped(entry, b) == words + [entry(b[|b| - 4..])] && |words| == |b| / 4 - 1;
    if i == |b| / 4 - 1 {
      assert b[4 * i..4 * i + 4] == b[|b| - 4..];
    } else {
      GroupedAt(entry, front, i);
      SliceOfFront(b, |b| - 4, 4 * i, 4 * i + 4);
    }
  }

  /** One block of output. */
  method Chacha20Block(key: seq<Byte>, counter: Word, nonce: seq<Byte>, output: array<Byte>)
    requires |key| == KEY_BYTES && |nonce| == NONCE_BYTES && output.Length == BLOCK_BYTES
    modifies output
    ensures output[..] == Block(key, counter, nonce)
  {
    var working := new Word[WORDS](_ => 0);
    LoadState(CONSTANTS, ToWord, key, counter, nonce, working);
    ghost var state := InitState(key, counter, nonce);
    assert working[..] == state;
    FinishBlock(Quarter, Plus, ToBytes, working, DOUBLE_ROUNDS, output);
  }

  /** Constants, key, counter and nonce into the state. */
  method LoadState<T>(constants: seq<T>, entry: seq<Byte> -> T, key: seq<Byte>, counter: T, nonce: seq<Byte>,
      s: array<T>)
    requires |constants| == 4 && |key| == KEY_BYTES && |nonce| == NONCE_BYTES && s.Length == WORDS
    modifies s
    ensures s[..] == constants + Grouped(entry, key) + [counter] + Grouped(entry, nonce)
  {
    for i := 0 to 4
      invariant s[..i] == constants[..i]
    {
      s[i] := constants[i];
    }
    LoadWords(entry, key, s, 4);
    s[12] := counter;
    LoadWords(entry, nonce, s, 13);
  }

  /** The rounds, the addition of the first state, and the bytes. */
  method FinishBlock<T(!new)>(quarter: Four<T> -> Four<T>, plus: (T, T) -> T, bytes: T -> seq<Byte>, s: array<T>,
      n: nat, output: array<Byte>)
    requires FourBytes(bytes) && s.Length == WORDS && output.Length == BLOCK_BYTES && output as object != s
    modifies s, output
    ensures output[..] == Serialized(bytes, Added(plus, Rounds(quarter, old(s[..]), n), old(s[..])))
  {
    var first := s[..];
    AllRounds(quarter, s, n);
    AddInPlace(plus, s, first);
    Serialize(bytes, s, output);
  }
}
