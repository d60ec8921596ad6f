/** The test vector of section 2.3.2 of RFC 8439: a whole block, round by round. */
module ChaChaVector {
  import opened Bytes
  import opened ChaCha

  /** The state after `i` of the ten double rounds. */
  function After(i: nat): (s: seq<Word>)
    ensures |s| == WORDS
  {
    if i == 0 then
      [0x61707865, 0x3320646e, 0x79622d32, 0x6b206574, 0x03020100, 0x07060504, 0x0b0a0908, 0x0f0e0d0c,
       0x13121110, 0x17161514, 0x1b1a1918, 0x1f1e1d1c, 0x00000001, 0x09000000, 0x4a000000, 0x00000000]
    else if i == 1 then
      [0xcd52e917, 0x85ab03b4, 0xb3457395, 0xf96de7dd, 0xc4b7cd22, 0x5c2e187a, 0xc95eb461, 0x316c801a,
       0x7bf7d740, 0x7eddd644, 0xf1a1bdf5, 0x761246ca, 0x6b0d58a3, 0x6798471a, 0xd737f167, 0xf173888d]
    else if i == 2 then
      [0xcf1a7584, 0x048927ec, 0x54051fda, 0xc244ff28, 0x901d2f40, 0x7974b81c, 0x378dcfb4, 0xcd47fd0e,
       0x2dafb216, 0x27c89cd6, 0xcd3c9aa0, 0x79fc89c7, 0x10aef18d, 0x16218765, 0x68f76705, 0x04d6ee22]
    else if i == 3 then
      [0x03a14032, 0x66b15927, 0x9d6b6b42, 0xb84c4109, 0xa7143ae0, 0xa09b33dd, 0xa5daaf88, 0x2fd91a73,
       0xc90c6b18, 0x5a202413, 0xc20e01b6, 0x72cd6b74, 0xba35d777, 0xb360f1bf, 0x8178315b, 0x2cd11b1a]
    else if i == 4 then
      [0x9a2d3589, 0x0b23fc4e, 0x40af3b6b, 0xceea8144, 0x0a1bffc6, 0x5e5993f7, 0x9904c2e7, 0x0d334718,
       0xe46c6354, 0xc9503229, 0x04fef5aa, 0xf8933f72, 0x2687d476, 0x54e65231, 0x3594ffc5, 0x2b3bb2ca]
    else if i == 5 then
      [0xc53318c5, 0xca325d96, 0x7e7d11cb, 0x3404e2ca, 0x26d7cf73, 0x6088d379, 0xc0f0e9bd, 0xe310cdb9,
       0xae2ca8db, 0x42f67c72, 0x71669aca, 0x975c171d, 0x9e5ec228, 0x7d85a9f3, 0x201d0756, 0x63fa6953]
    else if i == 6 then
      [0x04a3131a, 0x66176309, 0x0415bab1, 0x61b880a2, 0x36cc86c7, 0xbf8a4465, 0xf77dd720, 0xfc0bdc90,
       0x07d13aca, 0xeb0be9af, 0x61599491, 0x918512dc, 0x33b6686d, 0x795cc671, 0xc0049972, 0xa0a81bde]
    else if i == 7 then
      [0x9b70f51f, 0x7ea8ac11, 0x21e54da9, 0xca393b2f, 0x93b08686, 0x6a4c50ae, 0x19212a5a, 0x9b032958,
       0xd839165e, 0x4c06e28a, 0xd3fde99e, 0x26acc13d, 0xa609f555, 0x2c246549, 0x95151853, 0x2c847a0d]
    else if i == 8 then
      [0xca5c85dd, 0x93a4f90e, 0xd9f0df58, 0x26dd82dd, 0x982563f8, 0x712aa9ff, 0x279a61e8, 0x970f72bd,
       0x1c25931a, 0x5180bb10, 0x779c27e7, 0x54077e08, 0xa9b751fb, 0x382f3ce2, 0x8db1757d, 0xcc38080b]
    else if i == 9 then
      [0xb6b87de6, 0x9a016148, 0x93859815, 0x4915e6cc, 0xdc33c122, 0x98e18fa3, 0x5ffbe8fc, 0xf7154b8b,
       0x28c1fcb3, 0xc4b38f9d, 0x83e2f5d7, 0x7d24b98b, 0x21078b22, 0xb193e7a3, 0xb2f49389, 0x6cde6026]
    else
      [0x837778ab, 0xe238d763, 0xa67ae21e, 0x5950bb2f, 0xc4f2d0c7, 0xfc62bb2f, 0x8fa018fc, 0x3f5ec7b7,
       0x335271c2, 0xf29489f3, 0xeabda8fc, 0x82e46ebd, 0xd19c12b4, 0xb04e16de, 0x9e83d0cb, 0x4e3c50a2]
  }

  const KEY_WORDS: seq<Word> := [0x03020100, 0x07060504, 0x0b0a0908, 0x0f0e0d0c,
                                 0x13121110, 0x17161514, 0x1b1a1918, 0x1f1e1d1c]
  const NONCE_WORDS: seq<Word> := [0x09000000, 0x4a000000, 0x00000000]
  const BLOCK_WORDS: seq<Word> :=
    [0xe4e7f110, 0x15593bd1, 0x1fdd0f50, 0xc47120a3, 0xc7f4d1c7, 0x0368c033, 0x9aaa2204, 0x4e6cd4c3,
     0x466482d2, 0x09aa9f07, 0x05d7c214, 0xa2028bd9, 0xd19c12b5, 0xb94e16de, 0xe883d0cb, 0x4e3c50a2]

  lemma Round0() ensures Diagonals(Quarter, Columns(Quarter, After(0))) == After(1) { }
  lemma Round1() ensures Diagonals(Quarter, Columns(Quarter, After(1))) == After(2) { }
  lemma Round2() ensures Diagonals(Quarter, Columns(Quarter, After(2))) == After(3) { }
  lemma Round3() ensures Diagonals(Quarter, Columns(Quarter, After(3))) == After(4) { }
  lemma Round4() ensures Diagonals(Quarter, Columns(Quarter, After(4))) == After(5) { }
  lemma Round5() ensures Diagonals(Quarter, Columns(Quarter, After(5))) == After(6) { }
  lemma Round6() ensures Diagonals(Quarter, Columns(Quarter, After(6))) == After(7) { }
  lemma Round7() ensures Diagonals(Quarter, Columns(Quarter, After(7))) == After(8) { }
  lemma Round8() ensures Diagonals(Quarter, Columns(Quarter, After(8))) == After(9) { }
  lemma Round9() ensures Diagonals(Quarter, Columns(Quarter, After(9))) == After(10) { }

  lemma OneRound(i: nat)
    requires i < DOUBLE_ROUNDS
    ensures Diagonals(Quarter, Columns(Quarter, After(i))) == After(i + 1)
  {
    match i
    case 0 => Round0();
    case 1 => Round1();
    case 2 => Round2();
    case 3 => Round3();
    case 4 => Round4();
    case 5 => Round5();
    case 6 => Round6();
    case 7 => Round7();
    case 8 => Round8();
    case _ => Round9();
  }

  /** Rows that follow each other round by round are what the rounds lead to. */
  lemma {:induction false} RowsFollow<T>(quarter: Four<T> -> Four<T>, row: nat -> seq<T>, n: nat)
    requires forall i: nat :: i <= n ==> |row(i)| == WORDS
    requires forall i: nat :: i < n ==> Diagonals(quarter, Columns(quarter, row(i))) == row(i + 1)
    ensures Rounds(quarter, row(0), n) == row(n)
  {
    if n == 0 {
    } else {
      RowsFollow(quarter, row, n - 1);
    }
  }

  lemma Start(key: seq<Byte>, nonce: seq<Byte>)
    requires key == Serialized(ToBytes, KEY_WORDS) && nonce == Serialized(ToBytes, NONCE_WORDS)
    ensures |key| == KEY_BYTES && |nonce| == NONCE_BYTES && InitState(key, 1, nonce) == After(0)
  {
    SerializedLength(ToBytes, KEY_WORDS);
    SerializedLength(ToBytes, NONCE_WORDS);
    WordsRoundTrip(KEY_WORDS);
    WordsRoundTrip(NONCE_WORDS);
    assert InitState(key, 1, nonce) == CONSTANTS + KEY_WORDS + [1] + NONCE_WORDS;
  }

  lemma Sum()
    ensures Added(Plus, After(10), After(0)) == BLOCK_WORDS
  {
    var w, s := After(10), After(0);
    assert Plus(w[0], s[0]) == BLOCK_WORDS[0] && Plus(w[1], s[1]) == BLOCK_WORDS[1]
           && Plus(w[2], s[2]) == BLOCK_WORDS[2];
    assert Plus(w[3], s[3]) == BLOCK_WORDS[3] && Plus(w[4], s[4]) == BLOCK_WORDS[4]
           && Plus(w[5], s[5]) == BLOCK_WORDS[5];
    assert Plus(w[6], s[6]) == BLOCK_WORDS[6] && Plus(w[7], s[7]) == BLOCK_WORDS[7]
           && Plus(w[8], s[8]) == BLOCK_WORDS[8];
    assert Plus(w[9], s[9]) == BLOCK_WORDS[9] && Plus(w[10], s[10]) == BLOCK_WORDS[10]
           && Plus(w[11], s[11]) == BLOCK_WORDS[11];
    assert Plus(w[12], s[12]) == BLOCK_WORDS[12] && Plus(w[13], s[13]) == BLOCK_WORDS[13]
           && Plus(w[14], s[14]) == BLOCK_WORDS[14];
    assert Plus(w[15], s[15]) == BLOCK_WORDS[15];
  }

  /** The block of the test vector; key, nonce and block are given by their little-endian words. */
  lemma BlockVector(key: seq<Byte>, nonce: seq<Byte>)
    requires key == Serialized(ToBytes, KEY_WORDS) && nonce == Serialized(ToBytes, NONCE_WORDS)
    ensures |key| == KEY_BYTES && |nonce| == NONCE_BYTES
    ensures Block(key, 1, nonce) == Serialized(ToBytes, BLOCK_WORDS)
  {
    Start(key, nonce);
    forall i: nat | i < DOUBLE_ROUNDS
      ensures Diagonals(Quarter, Columns(Quarter, After(i))) == After(i + 1)
    {
      OneRound(i);
    }
    RowsFollow(Quarter, After, DOUBLE_ROUNDS);
    Sum();
  }
}
