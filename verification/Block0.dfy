/** YMODEM block 0: the sender's header packet and the receiver's bounded parse of it. */
module Block0 {
  import opened Bytes

  const NUL: Byte := 0
  const HEADER_LEN := 128
  const MAX_DIGITS := 10

  /** The ASCII byte of one decimal digit. */
  function DigitByte(d: nat): Byte
    requires d < 10
  {
    [0x30, 0x31, 0x32, 0x33, 0x34, 0x35, 0x36, 0x37, 0x38, 0x39][d]
  }

  predicate IsDigit(b: Byte) {
    0x30 <= b <= 0x39
  }

  function DigitValue(b: Byte): (d: nat)
    ensures d < 10
  {
    if b == 0x31 then 1 else if b == 0x32 then 2 else if b == 0x33 then 3
    else if b == 0x34 then 4 else if b == 0x35 then 5 else if b == 0x36 then 6
    else if b == 0x37 then 7 else if b == 0x38 then 8 else if b == 0x39 then 9 else 0
  }

  /** The decimal text of a number, most significant digit first. */
  function Digits(n: nat): (s: seq<Byte>)
    ensures |s| >= 1
  {
    if n < 10 then [DigitByte(n)] else Digits(n / 10) + [DigitByte(n % 10)]
  }

  function DecValue(s: seq<Byte>): nat {
    if s == [] then 0 else 10 * DecValue(s[..|s| - 1]) + DigitValue(s[|s| - 1])
  }

  /** The length of the run of digits at the front of `s`. */
  function DigitRun(s: seq<Byte>): (n: nat)
    ensures n <= |s|
    ensures forall i :: 0 <= i < n ==> IsDigit(s[i])
    ensures n < |s| ==> !IsDigit(s[n])
  {
    if s == [] || !IsDigit(s[0]) then 0 else 1 + DigitRun(s[1..])
  }

  /** The index of the first NUL, or the length when there is none. */
  function NulIndex(s: seq<Byte>): (k: nat)
    ensures k <= |s|
    ensures NUL !in s[..k]
    ensures k < |s| ==> s[k] == NUL
  {
    if s == [] || s[0] == NUL then 0 else 1 + NulIndex(s[1..])
  }

  /** The size field: one to ten digits that end before the packet does. */
  function ParseSize(s: seq<Byte>): Option<nat> {
    var n := DigitRun(s);
    if 1 <= n <= MAX_DIGITS && n < |s| then Some(DecValue(s[..n])) else None
  }

  function ParseBlock0(body: seq<Byte>): Option<nat> {
    var k := NulIndex(body) + 1;
    if k >= |body| then None else ParseSize(body[k..])
  }

  function Zeros(n: nat): (s: seq<Byte>)
    ensures |s| == n
    ensures forall i :: 0 <= i < n ==> s[i] == NUL
  {
    seq(n, _ => NUL)
  }

  /** The header body: name, NUL, decimal size, NUL, padded with NULs to 128 bytes. */
  function Header(name: seq<Byte>, size: nat): seq<Byte> {
    var body := name + [NUL] + Digits(size) + [NUL];
    if |body| < HEADER_LEN then body + Zeros(HEADER_LEN - |body|) else body
  }

  // ---- the receiver's loops ----

  method FindNul(packet: seq<Byte>) returns (k: nat)
    ensures k == NulIndex(packet)
  {
    k := 0;
    while k < |packet| && packet[k] != NUL
      invariant k <= |packet|
      invariant NulIndex(packet) == k + NulIndex(packet[k..])
    {
      assert packet[k..][1..] == packet[k + 1..];
      k := k + 1;
    }
  }

  /** Bounded decimal parse: rejects an empty run, an eleventh digit and an unterminated run. */
  method AtoulBounded(s: seq<Byte>) returns (v: nat, ok: bool)
    ensures ok <==> ParseSize(s).Some?
    ensures ok ==> v == ParseSize(s).value
  {
    v := 0;
    ok := false;
    var i := 0;
    while i < |s| && IsDigit(s[i])
      invariant i <= |s| && i <= MAX_DIGITS
      invariant v == DecValue(s[..i])
      invariant DigitRun(s) == i + DigitRun(s[i..])
      invariant !ok
    {
      assert s[i..][1..] == s[i + 1..];
      if i >= MAX_DIGITS {
        return 0, false;
      }
      assert s[..i + 1][..i] == s[..i];
      v := 10 * v + DigitValue(s[i]);
      i := i + 1;
    }
    if i == 0 || i >= |s| {
      return 0, false;
    }
    ok := true;
  }

  // ---- round trip ----

  lemma DigitRoundTrip(d: nat)
    requires d < 10
    ensures IsDigit(DigitByte(d)) && DigitValue(DigitByte(d)) == d
  {
  }

  lemma {:induction false} DigitsRoundTrip(n: nat)
    ensures DecValue(Digits(n)) == n
    ensures forall i :: 0 <= i < |Digits(n)| ==> IsDigit(Digits(n)[i])
  {
    DigitRoundTrip(n % 10);
    if n < 10 {
      assert Digits(n)[..0] == [];
    } else {
      DigitsRoundTrip(n / 10);
      var s := Digits(n);
      assert s[..|s| - 1] == Digits(n / 10);
    }
  }

  /** A number has at most `k` digits exactly when it is below ten to the `k`. */
  lemma {:induction false} DigitsLength(n: nat, k: nat)
    requires k >= 1
    ensures |Digits(n)| <= k <==> n < Pow10(k)
    decreases k
  {
    if n < 10 {
      if k > 1 { DigitsLength(n, k - 1); }
    } else if k > 1 {
      DigitsLength(n / 10, k - 1);
    } else {
      assert Pow10(1) == 10 * Pow10(0);
    }
  }

  lemma {:induction false} DigitRunIs(digits: seq<Byte>, rest: seq<Byte>)
    requires forall i :: 0 <= i < |digits| ==> IsDigit(digits[i])
    requires rest != [] && !IsDigit(rest[0])
    ensures DigitRun(digits + rest) == |digits|
  {
    if digits == [] {
      assert digits + rest == rest;
    } else {
      assert (digits + rest)[1..] == digits[1..] + rest;
      DigitRunIs(digits[1..], rest);
    }
  }

  lemma {:induction false} NulIndexIs(name: seq<Byte>, rest: seq<Byte>)
    requires NUL !in name
    requires rest != [] && rest[0] == NUL
    ensures NulIndex(name + rest) == |name|
  {
    if name == [] {
      assert name + rest == rest;
    } else {
      assert (name + rest)[1..] == name[1..] + rest;
      NulIndexIs(name[1..], rest);
    }
  }

  lemma ParseSizeIs(d: seq<Byte>, pad: seq<Byte>)
    requires d != [] && pad != [] && !IsDigit(pad[0])
    requires forall i :: 0 <= i < |d| ==> IsDigit(d[i])
    ensures ParseSize(d + pad) == if |d| <= MAX_DIGITS then Some(DecValue(d)) else None
  {
    DigitRunIs(d, pad);
    assert (d + pad)[..|d|] == d;
  }

  lemma ParsePastName(name: seq<Byte>, rest: seq<Byte>)
    requires NUL !in name && rest != []
    ensures ParseBlock0(name + ([NUL] + rest)) == ParseSize(rest)
  {
    NulIndexIs(name, [NUL] + rest);
    assert (name + ([NUL] + rest))[|name| + 1..] == rest;
  }

  /** The bytes of the digits are the codes 0x30 to 0x39 in order. */
  lemma DigitCodes(d: nat)
    requires d < 10
    ensures DigitByte(d) as int == 0x30 + d && DigitValue(DigitByte(d)) == d
  {
  }

  lemma {:induction false} DecValueBound(s: seq<Byte>)
    ensures DecValue(s) < Pow10(|s|)
  {
    if s == [] {
    } else {
      DecValueBound(s[..|s| - 1]);
    }
  }

  /** A size that was accepted has at most ten digits. */
  lemma ParsedFits(body: seq<Byte>)
    ensures ParseBlock0(body).Some? ==> ParseBlock0(body).value < Pow10(MAX_DIGITS)
  {
    var k := NulIndex(body) + 1;
    if k < |body| {
      var n := DigitRun(body[k..]);
      DecValueBound(body[k..][..n]);
      if n <= MAX_DIGITS { Pow10Grows(n, MAX_DIGITS); }
    }
  }

  /** The parts of a header: a name, a NUL, one to ten digits, and something that is no digit. */
  ghost predicate HasParts(body: seq<Byte>, name: seq<Byte>, d: seq<Byte>, rest: seq<Byte>) {
    && body == name + ([0] + (d + rest)) && 0 !in name && 1 <= |d| <= 10
    && (forall i :: 0 <= i < |d| ==> 0x30 <= d[i] <= 0x39) && rest != [] && !(0x30 <= rest[0] <= 0x39)
  }

  lemma SizeParts(s: seq<Byte>) returns (d: seq<Byte>, rest: seq<Byte>)
    requires ParseSize(s).Some?
    ensures s == d + rest && 1 <= |d| <= 10 && (forall i :: 0 <= i < |d| ==> 0x30 <= d[i] <= 0x39)
    ensures rest != [] && !(0x30 <= rest[0] <= 0x39) && ParseSize(s) == Some(DecValue(d))
  {
    var n := DigitRun(s);
    d, rest := s[..n], s[n..];
  }

  lemma NameParts(body: seq<Byte>) returns (name: seq<Byte>, s: seq<Byte>)
    requires ParseBlock0(body).Some?
    ensures body == name + ([0] + s) && 0 !in name && ParseBlock0(body) == ParseSize(s)
  {
    var k := NulIndex(body);
    name, s := body[..k], body[k + 1..];
  }

  lemma PartsAreRead(body: seq<Byte>, name: seq<Byte>, d: seq<Byte>, rest: seq<Byte>)
    requires HasParts(body, name, d, rest)
    ensures ParseBlock0(body) == Some(DecValue(d))
  {
    ParsePastName(name, d + rest);
    ParseSizeIs(d, rest);
  }

  lemma ParsedParts(body: seq<Byte>, size: nat)
    requires ParseBlock0(body) == Some(size)
    ensures exists name, d, rest :: HasParts(body, name, d, rest) && DecValue(d) == size
  {
    var name, s := NameParts(body);
    var d, rest := SizeParts(s);
    assert HasParts(body, name, d, rest);
  }

  /** A header is read exactly when it has these parts, and then the size is what the digits say. */
  lemma ParseExact(body: seq<Byte>, size: nat)
    ensures ParseBlock0(body) == Some(size) <==>
              exists name, d, rest :: HasParts(body, name, d, rest) && DecValue(d) == size
  {
    if ParseBlock0(body) == Some(size) {
      ParsedParts(body, size);
    }
    forall name, d, rest | HasParts(body, name, d, rest) ensures ParseBlock0(body) == Some(DecValue(d)) {
      PartsAreRead(body, name, d, rest);
    }
  }

  /** A header is the name, a NUL, the size in decimal and NULs up to 128 bytes, and at least one. */
  lemma HeaderLaw(name: seq<Byte>, size: nat)
    ensures var h, used := Header(name, size), |name| + 1 + |Digits(size)|;
            && |h| == (if used < 128 then 128 else used + 1)
            && h[..used] == name + [0] + Digits(size) && forall i :: used <= i < |h| ==> h[i] == 0
  {
  }

  lemma ParseParts(name: seq<Byte>, d: seq<Byte>, pad: seq<Byte>)
    requires NUL !in name && d != [] && pad != [] && pad[0] == NUL
    requires forall i :: 0 <= i < |d| ==> IsDigit(d[i])
    ensures ParseBlock0(name + ([NUL] + (d + pad))) == if |d| <= MAX_DIGITS then Some(DecValue(d)) else None
  {
    ParsePastName(name, d + pad);
    ParseSizeIs(d, pad);
  }

  function Padding(used: nat): seq<Byte> {
    [NUL] + Zeros(if used < HEADER_LEN then HEADER_LEN - used else 0)
  }

  lemma HeaderParts(name: seq<Byte>, size: nat)
    ensures var d := Digits(size); Header(name, size) == name + ([NUL] + (d + Padding(|name| + |d| + 2)))
    ensures |Header(name, size)| == HEADER_LEN <==> |name| + |Digits(size)| + 2 <= HEADER_LEN
  {
  }

  lemma HeaderParses(name: seq<Byte>, size: nat)
    requires NUL !in name
    ensures ParseBlock0(Header(name, size)) == if |Digits(size)| <= MAX_DIGITS then Some(size) else None
  {
    HeaderParts(name, size);
    DigitsRoundTrip(size);
    PartsParse(Header(name, size), name, Digits(size), Padding(|name| + |Digits(size)| + 2));
  }

  lemma PartsParse(h: seq<Byte>, name: seq<Byte>, d: seq<Byte>, pad: seq<Byte>)
    requires h == name + ([NUL] + (d + pad))
    requires NUL !in name && d != [] && pad != [] && pad[0] == NUL
    requires forall i :: 0 <= i < |d| ==> IsDigit(d[i])
    ensures ParseBlock0(h) == if |d| <= MAX_DIGITS then Some(DecValue(d)) else None
  {
    ParseParts(name, d, pad);
  }

  lemma SizeFits(size: nat)
    ensures |Digits(size)| <= MAX_DIGITS <==> size < Pow10(MAX_DIGITS)
  {
    DigitsLength(size, MAX_DIGITS);
  }

  lemma HeaderLength(name: seq<Byte>, size: nat)
    ensures |Header(name, size)| == HEADER_LEN <==> |name| + |Digits(size)| + 2 <= HEADER_LEN
  {
    HeaderParts(name, size);
  }

  /**
   * The header round trip, for every name without a NUL and every size: the parse gives the size
   * back when it has at most ten digits and refuses it otherwise, and the header fills exactly one
   * 128-byte packet unless the name is too long.
   */
  lemma HeaderRoundTrip(name: seq<Byte>, size: nat)
    requires NUL !in name
    ensures ParseBlock0(Header(name, size)) == if size < Pow10(MAX_DIGITS) then Some(size) else None
    ensures |Header(name, size)| == HEADER_LEN <==> |name| + |Digits(size)| + 2 <= HEADER_LEN
  {
    HeaderParses(name, size);
    SizeFits(size);
    HeaderLength(name, size);
  }
}
