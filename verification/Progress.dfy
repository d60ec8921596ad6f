/** The progress text of the receiver, as bytes on the serial line. */
module Progress {
  import opened Bytes
  import opened Block0

  const LF: Byte := 0x0A
  const CR: Byte := 0x0D
  const ACK: Byte := 0x06
  const NAK: Byte := 0x15
  const CAN: Byte := 0x18
  const CHR_C: Byte := 0x43

  /** A line is written each time the byte count passes a multiple of 16 blocks. */
  const EVERY := 8192

  /** `LF [rx n=`, ` total=` and `] LF`. */
  const OPENING: seq<Byte> := [LF, 0x5B, 0x72, 0x78, 0x20, 0x6E, 0x3D]
  const MIDDLE: seq<Byte> := [0x20, 0x74, 0x6F, 0x74, 0x61, 0x6C, 0x3D]
  const CLOSING: seq<Byte> := [0x5D, LF]

  /** What the receiver writes after `n` bytes of a file of the given size. */
  function Written(n: nat, size: nat): seq<Byte> {
    OPENING + Digits(n) + MIDDLE + Digits(size) + CLOSING
  }

  /** The line for a first 5 of 7 bytes: LF `[rx n=5 total=7]` LF. */
  lemma LineVector()
    ensures Written(5, 7) == [0x0A, 0x5B, 0x72, 0x78, 0x20, 0x6E, 0x3D, 0x35,
                              0x20, 0x74, 0x6F, 0x74, 0x61, 0x6C, 0x3D, 0x37, 0x5D, 0x0A]
  {
  }

  /** What the serial driver sends: a carriage return before every line feed. */
  function Sent(text: seq<Byte>): seq<Byte> {
    if text == [] then [] else (if text[0] == LF then [CR, LF] else [text[0]]) + Sent(text[1..])
  }

  /** Bytes the host takes for an answer. */
  predicate IsControl(b: Byte) {
    b == ACK || b == NAK || b == CAN || b == CHR_C
  }

  predicate Plain(text: seq<Byte>) {
    forall i :: 0 <= i < |text| ==> !IsControl(text[i])
  }

  function Feeds(text: seq<Byte>): nat {
    if text == [] then 0 else (if text[0] == LF then 1 else 0) + Feeds(text[1..])
  }

  lemma {:induction false} SentIs(text: seq<Byte>)
    ensures |Sent(text)| == |text| + Feeds(text)
    ensures Plain(text) ==> Plain(Sent(text))
  {
    if text == [] {
    } else {
      SentIs(text[1..]);
      if Plain(text) {
        assert !IsControl(text[0]);
        assert forall i :: 0 <= i < |text[1..]| ==> text[1..][i] == text[i + 1];
      }
    }
  }

  lemma {:induction false} FeedsAppend(a: seq<Byte>, b: seq<Byte>)
    ensures Feeds(a + b) == Feeds(a) + Feeds(b)
  {
    if a == [] {
      assert a + b == b;
    } else {
      assert (a + b)[1..] == a[1..] + b;
      FeedsAppend(a[1..], b);
    }
  }

  lemma {:induction false} NoFeeds(text: seq<Byte>)
    requires forall i :: 0 <= i < |text| ==> text[i] != LF
    ensures Feeds(text) == 0
  {
    if text == [] {
    } else {
      NoFeeds(text[1..]);
    }
  }

  lemma DigitsArePlain(n: nat)
    ensures Plain(Digits(n)) && Feeds(Digits(n)) == 0
  {
    DigitsRoundTrip(n);
    NoFeeds(Digits(n));
  }

  lemma FixedParts()
    ensures Plain(OPENING) && Plain(MIDDLE) && Plain(CLOSING)
    ensures Feeds(OPENING) == 1 && Feeds(MIDDLE) == 0 && Feeds(CLOSING) == 1
  {
    NoFeeds(OPENING[1..]);
    NoFeeds(MIDDLE);
    assert CLOSING[1..][1..] == [];
  }

  lemma WrittenIs(n: nat, size: nat)
    ensures Plain(Written(n, size)) && Feeds(Written(n, size)) == 2
  {
    FixedParts();
    DigitsArePlain(n);
    DigitsArePlain(size);
    var a := OPENING + Digits(n);
    var b := a + MIDDLE;
    FeedsAppend(OPENING, Digits(n));
    FeedsAppend(a, MIDDLE);
    FeedsAppend(b, Digits(size));
    FeedsAppend(b + Digits(size), CLOSING);
  }

  function LineLength(n: nat, size: nat): nat {
    18 + |Digits(n)| + |Digits(size)|
  }

  /** A progress line on the serial line: its length, and that no byte of it is taken for an answer. */
  lemma LineIs(n: nat, size: nat)
    ensures |Sent(Written(n, size))| == LineLength(n, size) && Plain(Sent(Written(n, size)))
  {
    WrittenIs(n, size);
    SentIs(Written(n, size));
  }

  function DigitsOrNone(n: nat): seq<Byte> {
    if n > 0 then Digits(n) else []
  }

  lemma LastDigit(n: nat)
    requires n > 0
    ensures DigitsOrNone(n) == DigitsOrNone(n / 10) + [DigitByte(n % 10)]
  {
  }

  /** The digits in `buf`, last one first, and those of `rest`, of which there is room for, make up `all`. */
  ghost predicate Collected(all: seq<Byte>, rest: nat, buf: seq<Byte>, room: nat) {
    all == DigitsOrNone(rest) + Reversed(buf) && rest < Pow10(room)
  }

  lemma CollectStep(all: seq<Byte>, rest: nat, buf: seq<Byte>, room: nat)
    requires Collected(all, rest, buf, room) && rest > 0
    ensures room > 0 && Collected(all, rest / 10, buf + [DigitByte(rest % 10)], room - 1)
  {
    LastDigit(rest);
    MovedOver(DigitsOrNone(rest), DigitsOrNone(rest / 10), DigitByte(rest % 10), buf);
    TenthFits(rest, room);
  }

  lemma MovedOver(digits: seq<Byte>, front: seq<Byte>, d: Byte, buf: seq<Byte>)
    requires digits == front + [d]
    ensures digits + Reversed(buf) == front + Reversed(buf + [d])
  {
    ReversedOne(buf, d);
  }

  lemma TenthFits(n: nat, room: nat)
    requires 0 < n < Pow10(room)
    ensures room > 0 && n / 10 < Pow10(room - 1)
  {
  }

  const BUFFER := 23
  const U64 := 0x1_0000_0000_0000_0000

  lemma TenTo(n: nat)
    ensures Pow10(n + 5) == 100_000 * Pow10(n)
  {
    assert Pow10(n + 2) == 100 * Pow10(n);
    assert Pow10(n + 4) == 100 * Pow10(n + 2);
  }

  lemma WordFits()
    ensures U64 <= Pow10(BUFFER) && Pow10(MAX_DIGITS) <= U64
  {
    TenTo(0);
    TenTo(5);
    TenTo(10);
    TenTo(15);
    Pow10Grows(20, BUFFER);
    assert Pow10(0) == 1;
  }

  method CollectDigits(v: nat, ghost room: nat) returns (buf: seq<Byte>)
    requires 0 < v < Pow10(room) && room == BUFFER
    ensures Reversed(buf) == Digits(v)
  {
    var rest := v;
    buf := [];
    ghost var left := room;
    while rest > 0 && |buf| < BUFFER
      invariant |buf| + left == BUFFER && Collected(Digits(v), rest, buf, left)
      decreases rest
    {
      CollectStep(Digits(v), rest, buf, left);
      buf := buf + [DigitByte(rest % 10)];
      rest := rest / 10;
      left := left - 1;
    }
  }

  method EmitBackwards(buf: seq<Byte>) returns (out: seq<Byte>)
    ensures out == Reversed(buf)
  {
    out := [];
    var j := |buf|;
    assert buf[..j] == buf && [] + Reversed(buf) == Reversed(buf);
    while j > 0
      invariant 0 <= j <= |buf| && out + Reversed(buf[..j]) == Reversed(buf)
    {
      j := j - 1;
      ReversedOne(buf[..j], buf[j]);
      assert buf[..j + 1] == buf[..j] + [buf[j]];
      assert out + ([buf[j]] + Reversed(buf[..j])) == (out + [buf[j]]) + Reversed(buf[..j]);
      out := out + [buf[j]];
    }
  }

  /** `print_u64`: the digits of a number, last one first into a buffer and then out in order. */
  method PrintU64(v: nat) returns (out: seq<Byte>)
    requires v < U64
    ensures out == Digits(v)
  {
    if v == 0 { return [DigitByte(0)]; }
    WordFits();
    var buf := CollectDigits(v, BUFFER);
    out := EmitBackwards(buf);
  }

  function Reversed(s: seq<Byte>): seq<Byte> {
    if s == [] then [] else [s[|s| - 1]] + Reversed(s[..|s| - 1])
  }

  lemma ReversedOne(s: seq<Byte>, b: Byte)
    ensures Reversed(s + [b]) == [b] + Reversed(s)
  {
    assert (s + [b])[..|s|] == s;
  }
}
