/**
 * The transport framing of the serial line: raw bytes, base64 (section 4 of RFC 4648) or
 * hexadecimal (section 8 of RFC 4648), encoded per packet by the host and decoded byte by byte by
 * the receiver.
 */
module Framing {
  import opened Bytes

  datatype Mode = Raw | Base64 | Hex

  const LF: Byte := 0x0A
  const CR: Byte := 0x0D
  const PAD: Byte := 0x3D

  // ---- alphabets ----

  function B64Char(v: Byte): Byte {
    if v < 26 then 0x41 + v
    else if v < 52 then 0x61 + (v - 26)
    else if v < 62 then 0x30 + (v - 52)
    else if v == 62 then 0x2B else 0x2F
  }

  function B64Val(c: Byte): Option<Byte> {
    if 0x41 <= c <= 0x5A then Some(c - 0x41)
    else if 0x61 <= c <= 0x7A then Some(c - 0x61 + 26)
    else if 0x30 <= c <= 0x39 then Some(c - 0x30 + 52)
    else if c == 0x2B then Some(62)
    else if c == 0x2F then Some(63)
    else None
  }

  function HexChar(v: Byte): Byte {
    if v < 10 then 0x30 + v else 0x61 + (v - 10)
  }

  function HexVal(c: Byte): Option<Byte> {
    if 0x30 <= c <= 0x39 then Some(c - 0x30)
    else if 0x61 <= c <= 0x66 then Some(c - 0x61 + 10)
    else if 0x41 <= c <= 0x46 then Some(c - 0x41 + 10)
    else None
  }

  predicate IsNewline(c: Byte) {
    c == CR || c == LF
  }

  predicate IsBlank(c: Byte) {
    c == 0x20 || c == 0x09 || c == CR || c == LF
  }

  // ---- the host's encoder ----

  /** The four symbols of one to three bytes. */
  function Group(p: seq<Byte>): seq<Byte>
    requires 1 <= |p| <= 3
  {
    if |p| == 1 then [B64Char(p[0] >> 2), B64Char((p[0] & 3) << 4), PAD, PAD]
    else if |p| == 2 then
      [B64Char(p[0] >> 2), B64Char(((p[0] & 3) << 4) | (p[1] >> 4)), B64Char((p[1] & 15) << 2), PAD]
    else
      [B64Char(p[0] >> 2), B64Char(((p[0] & 3) << 4) | (p[1] >> 4)),
       B64Char(((p[1] & 15) << 2) | (p[2] >> 6)), B64Char(p[2] & 63)]
  }

  function EncodeB64(p: seq<Byte>): seq<Byte> {
    if p == [] then [] else if |p| <= 3 then Group(p) else Group(p[..3]) + EncodeB64(p[3..])
  }

  function EncodeHex(p: seq<Byte>): seq<Byte> {
    if p == [] then [] else [HexChar(p[0] >> 4), HexChar(p[0] & 15)] + EncodeHex(p[1..])
  }

  function Frame(mode: Mode, p: seq<Byte>): seq<Byte> {
    match mode
    case Raw => p
    case Base64 => EncodeB64(p) + [LF]
    case Hex => EncodeHex(p) + [LF]
  }

  // ---- the receiver's streaming decoder ----

  /** Bytes already decoded but not yet handed out, and the line input still to be read. */
  datatype Decoder = Decoder(pending: seq<Byte>, input: seq<Byte>)

  /** A base64 symbol: a value, or the padding character. */
  datatype Sym = Val(v: Byte) | Pad

  /** Reads symbols until four are collected; `None` when the input ends or a character is refused. */
  function Quartet(input: seq<Byte>, vals: seq<Sym>): (Option<seq<Sym>>, seq<Byte>)
    requires |vals| <= 4
    decreases |input|
  {
    if |vals| == 4 then (Some(vals), input)
    else if input == [] then (None, [])
    else if IsNewline(input[0]) then Quartet(input[1..], vals)
    else if input[0] == PAD then
      if |vals| < 2 then (None, input[1..]) else Quartet(input[1..], vals + [Pad])
    else
      match B64Val(input[0])
      case None => (None, input[1..])
      case Some(v) => Quartet(input[1..], vals + [Val(v)])
  }

  function SymBits(s: Sym): Byte {
    if s.Val? then s.v else 0
  }

  /** The one to three bytes of four symbols. */
  function Unpack(vals: seq<Sym>): (r: seq<Byte>)
    requires |vals| == 4
    ensures 1 <= |r| <= 3
  {
    var b0, b1, b2, b3 := SymBits(vals[0]), SymBits(vals[1]), SymBits(vals[2]), SymBits(vals[3]);
    var all := [(b0 << 2) | (b1 >> 4), ((b1 & 15) << 4) | (b2 >> 2), ((b2 & 3) << 6) | b3];
    if vals[2] == Pad then all[..1] else if vals[3] == Pad then all[..2] else all
  }

  /** Reads two hex digits, skipping blanks; `hi` is the first digit once it was read. */
  function HexPair(input: seq<Byte>, hi: Option<Byte>): (Option<Byte>, seq<Byte>)
    decreases |input|
  {
    if input == [] then (None, [])
    else if IsBlank(input[0]) then HexPair(input[1..], hi)
    else
      match HexVal(input[0])
      case None => (None, input[1..])
      case Some(v) => if hi.None? then HexPair(input[1..], Some(v)) else (Some((hi.value << 4) | v), input[1..])
  }

  /** The next stream byte, or `None` on a time-out or framing error. */
  function Next(mode: Mode, d: Decoder): (Option<Byte>, Decoder) {
    match mode
    case Raw => if d.input == [] then (None, d) else (Some(d.input[0]), d.(input := d.input[1..]))
    case Base64 =>
      if d.pending != [] then (Some(d.pending[0]), d.(pending := d.pending[1..]))
      else
        var (vals, rest) := Quartet(d.input, []);
        if vals.None? then (None, Decoder([], rest))
        else
          QuartetFull(d.input, []);
          var out := Unpack(vals.value);
          (Some(out[0]), Decoder(out[1..], rest))
    case Hex =>
      var (b, rest) := HexPair(d.input, None);
      (b, d.(input := rest))
  }

  lemma QuartetFull(input: seq<Byte>, vals: seq<Sym>)
    requires |vals| <= 4
    ensures var r := Quartet(input, vals).0; r.Some? ==> |r.value| == 4
    decreases |input|
  {
  }

  /** Exactly `n` stream bytes, or `None` when one of them could not be read. */
  function Take(mode: Mode, d: Decoder, n: nat): (Option<seq<Byte>>, Decoder)
    decreases n
  {
    if n == 0 then (Some([]), d)
    else
      var (b, d') := Next(mode, d);
      if b.None? then (None, d')
      else
        var (bs, d'') := Take(mode, d', n - 1);
        if bs.None? then (None, d'') else (Some([b.value] + bs.value), d'')
  }

  // ---- single symbols ----

  lemma B64Symbol(v: Byte)
    requires v < 64
    ensures B64Val(B64Char(v)) == Some(v)
    ensures !IsNewline(B64Char(v)) && B64Char(v) != PAD
  {
  }

  lemma HexSymbol(v: Byte)
    requires v < 16
    ensures HexVal(HexChar(v)) == Some(v) && !IsBlank(HexChar(v))
  {
  }

  lemma SixBits(a: Byte, b: Byte, c: Byte)
    ensures a >> 2 < 64 && (a & 3) << 4 < 64 && ((a & 3) << 4) | (b >> 4) < 64
    ensures (b & 15) << 2 < 64 && ((b & 15) << 2) | (c >> 6) < 64 && c & 63 < 64
  {
  }

  lemma FirstByte(a: Byte, b: Byte)
    ensures ((a >> 2) << 2) | ((((a & 3) << 4) | (b >> 4)) >> 4) == a
    ensures ((a >> 2) << 2) | (((a & 3) << 4) >> 4) == a
  {
  }

  lemma SecondByte(a: Byte, b: Byte, c: Byte)
    ensures (((((a & 3) << 4) | (b >> 4)) & 15) << 4) | ((((b & 15) << 2) | (c >> 6)) >> 2) == b
    ensures (((((a & 3) << 4) | (b >> 4)) & 15) << 4) | (((b & 15) << 2) >> 2) == b
  {
  }

  lemma ThirdByte(b: Byte, c: Byte)
    ensures (((((b & 15) << 2) | (c >> 6)) & 3) << 6) | (c & 63) == c
  {
  }

  lemma Nibbles(a: Byte)
    ensures a >> 4 < 16 && a & 15 < 16
    ensures ((a >> 4) << 4) | (a & 15) == a
  {
  }

  // ---- decoding what was encoded ----

  lemma QuartetVal(v: Byte, rest: seq<Byte>, vals: seq<Sym>)
    requires v < 64 && |vals| < 4
    ensures Quartet([B64Char(v)] + rest, vals) == Quartet(rest, vals + [Val(v)])
  {
    B64Symbol(v);
    assert ([B64Char(v)] + rest)[1..] == rest;
  }

  lemma QuartetPad(rest: seq<Byte>, vals: seq<Sym>)
    requires 2 <= |vals| < 4
    ensures Quartet([PAD] + rest, vals) == Quartet(rest, vals + [Pad])
  {
    assert ([PAD] + rest)[1..] == rest;
  }

  lemma FourValues(a: Byte, b: Byte, c: Byte, d: Byte, rest: seq<Byte>)
    requires a < 64 && b < 64 && c < 64 && d < 64
    ensures Quartet([B64Char(a), B64Char(b), B64Char(c), B64Char(d)] + rest, [])
              == (Some([Val(a), Val(b), Val(c), Val(d)]), rest)
  {
    var r3 := [B64Char(d)] + rest;
    var r2 := [B64Char(c)] + r3;
    var r1 := [B64Char(b)] + r2;
    assert [B64Char(a), B64Char(b), B64Char(c), B64Char(d)] + rest == [B64Char(a)] + r1;
    QuartetVal(a, r1, []);
    QuartetVal(b, r2, [Val(a)]);
    QuartetVal(c, r3, [Val(a), Val(b)]);
    QuartetVal(d, rest, [Val(a), Val(b), Val(c)]);
    assert [] + [Val(a)] == [Val(a)] && [Val(a)] + [Val(b)] == [Val(a), Val(b)];
    assert [Val(a), Val(b)] + [Val(c)] == [Val(a), Val(b), Val(c)];
    assert [Val(a), Val(b), Val(c)] + [Val(d)] == [Val(a), Val(b), Val(c), Val(d)];
  }

  lemma ThreeValues(a: Byte, b: Byte, c: Byte, rest: seq<Byte>)
    requires a < 64 && b < 64 && c < 64
    ensures Quartet([B64Char(a), B64Char(b), B64Char(c), PAD] + rest, [])
              == (Some([Val(a), Val(b), Val(c), Pad]), rest)
  {
    var r3 := [PAD] + rest;
    var r2 := [B64Char(c)] + r3;
    var r1 := [B64Char(b)] + r2;
    assert [B64Char(a), B64Char(b), B64Char(c), PAD] + rest == [B64Char(a)] + r1;
    QuartetVal(a, r1, []);
    QuartetVal(b, r2, [Val(a)]);
    QuartetVal(c, r3, [Val(a), Val(b)]);
    QuartetPad(rest, [Val(a), Val(b), Val(c)]);
    assert [] + [Val(a)] == [Val(a)] && [Val(a)] + [Val(b)] == [Val(a), Val(b)];
    assert [Val(a), Val(b)] + [Val(c)] == [Val(a), Val(b), Val(c)];
    assert [Val(a), Val(b), Val(c)] + [Pad] == [Val(a), Val(b), Val(c), Pad];
  }

  lemma TwoValues(a: Byte, b: Byte, rest: seq<Byte>)
    requires a < 64 && b < 64
    ensures Quartet([B64Char(a), B64Char(b), PAD, PAD] + rest, []) == (Some([Val(a), Val(b), Pad, Pad]), rest)
  {
    var r3 := [PAD] + rest;
    var r2 := [PAD] + r3;
    var r1 := [B64Char(b)] + r2;
    assert [B64Char(a), B64Char(b), PAD, PAD] + rest == [B64Char(a)] + r1;
    QuartetVal(a, r1, []);
    QuartetVal(b, r2, [Val(a)]);
    QuartetPad(r3, [Val(a), Val(b)]);
    QuartetPad(rest, [Val(a), Val(b), Pad]);
    assert [] + [Val(a)] == [Val(a)] && [Val(a)] + [Val(b)] == [Val(a), Val(b)];
    assert [Val(a), Val(b)] + [Pad] == [Val(a), Val(b), Pad];
    assert [Val(a), Val(b), Pad] + [Pad] == [Val(a), Val(b), Pad, Pad];
  }

  lemma UnpackOne(a: Byte)
    ensures Unpack([Val(a >> 2), Val((a & 3) << 4), Pad, Pad]) == [a]
  {
    FirstByte(a, 0);
  }

  lemma UnpackTwo(a: Byte, b: Byte)
    ensures Unpack([Val(a >> 2), Val(((a & 3) << 4) | (b >> 4)), Val((b & 15) << 2), Pad]) == [a, b]
  {
    FirstByte(a, b);
    SecondByte(a, b, 0);
  }

  lemma UnpackThree(a: Byte, b: Byte, c: Byte)
    ensures Unpack([Val(a >> 2), Val(((a & 3) << 4) | (b >> 4)), Val(((b & 15) << 2) | (c >> 6)), Val(c & 63)])
            == [a, b, c]
  {
    FirstByte(a, b);
    SecondByte(a, b, c);
    ThirdByte(b, c);
  }

  /** The symbols of a group are read back and stand for its bytes. */
  ghost predicate GroupReads(p: seq<Byte>, rest: seq<Byte>)
    requires 1 <= |p| <= 3
  {
    exists vals :: |vals| == 4 && Quartet(Group(p) + rest, []) == (Some(vals), rest) && Unpack(vals) == p
  }

  lemma OneByteReads(a: Byte, rest: seq<Byte>)
    ensures GroupReads([a], rest)
  {
    SixBits(a, 0, 0);
    TwoValues(a >> 2, (a & 3) << 4, rest);
    UnpackOne(a);
  }

  lemma TwoBytesRead(a: Byte, b: Byte, rest: seq<Byte>)
    ensures GroupReads([a, b], rest)
  {
    SixBits(a, b, 0);
    ThreeValues(a >> 2, ((a & 3) << 4) | (b >> 4), (b & 15) << 2, rest);
    UnpackTwo(a, b);
  }

  lemma ThreeBytesRead(a: Byte, b: Byte, c: Byte, rest: seq<Byte>)
    ensures GroupReads([a, b, c], rest)
  {
    SixBits(a, b, c);
    FourValues(a >> 2, ((a & 3) << 4) | (b >> 4), ((b & 15) << 2) | (c >> 6), c & 63, rest);
    UnpackThree(a, b, c);
  }

  /** One encoded group decodes to its bytes. */
  lemma GroupRoundTrip(p: seq<Byte>, rest: seq<Byte>)
    requires 1 <= |p| <= 3
    ensures GroupReads(p, rest)
  {
    if |p| == 1 {
      OneByteReads(p[0], rest);
      assert p == [p[0]];
    } else if |p| == 2 {
      TwoBytesRead(p[0], p[1], rest);
      assert p == [p[0], p[1]];
    } else {
      ThreeBytesRead(p[0], p[1], p[2], rest);
      assert p == [p[0], p[1], p[2]];
    }
  }

  /** Taking `m + n` bytes is taking `m` and then `n`. */
  lemma {:induction false} TakeSplit(mode: Mode, d: Decoder, m: nat, n: nat)
    requires Take(mode, d, m).0.Some?
    ensures var (a, d') := Take(mode, d, m);
            var (b, d'') := Take(mode, d', n);
            Take(mode, d, m + n) == (if b.None? then None else Some(a.value + b.value), d'')
    decreases m
  {
    if m == 0 {
      var b := Take(mode, d, n).0;
      if b.Some? { assert [] + b.value == b.value; }
    } else {
      var (x, d1) := Next(mode, d);
      TakeSplit(mode, d1, m - 1, n);
      var (a, d') := Take(mode, d1, m - 1);
      var b := Take(mode, d', n).0;
      if b.Some? { assert [x.value] + (a.value + b.value) == ([x.value] + a.value) + b.value; }
    }
  }

  lemma {:induction false} TakePending(q: seq<Byte>, input: seq<Byte>)
    ensures Take(Base64, Decoder(q, input), |q|) == (Some(q), Decoder([], input))
  {
    if q == [] {
    } else {
      TakePending(q[1..], input);
      assert [q[0]] + q[1..] == q;
    }
  }

  lemma TakeOne(mode: Mode, d: Decoder, x: Byte, d1: Decoder, n: nat, more: seq<Byte>, d2: Decoder)
    requires Next(mode, d) == (Some(x), d1) && Take(mode, d1, n) == (Some(more), d2)
    ensures Take(mode, d, n + 1) == (Some([x] + more), d2)
  {
  }

  lemma NextOfQuartet(input: seq<Byte>, vals: seq<Sym>, p: seq<Byte>, rest: seq<Byte>)
    requires |vals| == 4 && Quartet(input, []) == (Some(vals), rest) && Unpack(vals) == p
    ensures Next(Base64, Decoder([], input)) == (Some(p[0]), Decoder(p[1..], rest))
  {
  }

  lemma TakeGroup(p: seq<Byte>, rest: seq<Byte>)
    requires 1 <= |p| <= 3
    ensures Take(Base64, Decoder([], Group(p) + rest), |p|) == (Some(p), Decoder([], rest))
  {
    GroupRoundTrip(p, rest);
    var input := Group(p) + rest;
    var vals :| |vals| == 4 && Quartet(input, []) == (Some(vals), rest) && Unpack(vals) == p;
    NextOfQuartet(input, vals, p, rest);
    TakeUnpacked(Decoder([], input), p, rest);
  }

  lemma TakeUnpacked(d: Decoder, p: seq<Byte>, rest: seq<Byte>)
    requires p != [] && Next(Base64, d) == (Some(p[0]), Decoder(p[1..], rest))
    ensures Take(Base64, d, |p|) == (Some(p), Decoder([], rest))
  {
    TakePending(p[1..], rest);
    TakeOne(Base64, d, p[0], Decoder(p[1..], rest), |p| - 1, p[1..], Decoder([], rest));
    assert [p[0]] + p[1..] == p;
  }

  /** Two reads in a row are one read. */
  lemma TakeBoth(mode: Mode, d: Decoder, a: seq<Byte>, mid: Decoder, b: seq<Byte>, end: Decoder)
    requires Take(mode, d, |a|) == (Some(a), mid) && Take(mode, mid, |b|) == (Some(b), end)
    ensures Take(mode, d, |a + b|) == (Some(a + b), end)
  {
    TakeSplit(mode, d, |a|, |b|);
  }

  lemma {:induction false} Base64RoundTrip(p: seq<Byte>, rest: seq<Byte>)
    ensures Take(Base64, Decoder([], EncodeB64(p) + rest), |p|) == (Some(p), Decoder([], rest))
    decreases |p|
  {
    if p == [] {
      assert EncodeB64(p) + rest == rest;
    } else if |p| <= 3 {
      TakeGroup(p, rest);
    } else {
      Base64RoundTrip(p[3..], rest);
      HeadAndTail(EncodeB64(p), EncodeB64(p[3..]), p[..3], p[3..], rest);
      assert p[..3] + p[3..] == p;
    }
  }

  lemma HeadAndTail(all: seq<Byte>, tailCode: seq<Byte>, head: seq<Byte>, tail: seq<Byte>, rest: seq<Byte>)
    requires |head| == 3 && all == Group(head) + tailCode
    requires Take(Base64, Decoder([], tailCode + rest), |tail|) == (Some(tail), Decoder([], rest))
    ensures Take(Base64, Decoder([], all + rest), |head + tail|) == (Some(head + tail), Decoder([], rest))
  {
    assert all + rest == Group(head) + (tailCode + rest);
    TakeGroup(head, tailCode + rest);
    TakeBoth(Base64, Decoder([], all + rest), head, Decoder([], tailCode + rest), tail, Decoder([], rest));
  }

  lemma HexByteRoundTrip(a: Byte, rest: seq<Byte>)
    ensures HexPair([HexChar(a >> 4), HexChar(a & 15)] + rest, None) == (Some(a), rest)
  {
    Nibbles(a);
    HexSymbol(a >> 4);
    HexSymbol(a & 15);
    var input := [HexChar(a >> 4), HexChar(a & 15)] + rest;
    assert input[1..] == [HexChar(a & 15)] + rest;
    assert ([HexChar(a & 15)] + rest)[1..] == rest;
  }

  lemma {:induction false} HexRoundTrip(p: seq<Byte>, rest: seq<Byte>)
    ensures Take(Hex, Decoder([], EncodeHex(p) + rest), |p|) == (Some(p), Decoder([], rest))
    decreases |p|
  {
    if p == [] {
      assert EncodeHex(p) + rest == rest;
    } else {
      assert EncodeHex(p) + rest == [HexChar(p[0] >> 4), HexChar(p[0] & 15)] + (EncodeHex(p[1..]) + rest);
      HexByteRoundTrip(p[0], EncodeHex(p[1..]) + rest);
      HexRoundTrip(p[1..], rest);
      assert [p[0]] + p[1..] == p;
    }
  }

  lemma {:induction false} RawRoundTrip(p: seq<Byte>, rest: seq<Byte>)
    ensures Take(Raw, Decoder([], p + rest), |p|) == (Some(p), Decoder([], rest))
    decreases |p|
  {
    if p == [] {
      assert p + rest == rest;
    } else {
      assert (p + rest)[1..] == p[1..] + rest;
      RawRoundTrip(p[1..], rest);
      assert [p[0]] + p[1..] == p;
    }
  }

  // ---- a sequence of framed packets ----

  predicate AllNewlines(s: seq<Byte>) {
    forall i :: 0 <= i < |s| ==> s[i] == LF
  }

  /** Newlines left over from the packet before are skipped by the next read. */
  lemma {:induction false} SkipNewlines(mode: Mode, lead: seq<Byte>, input: seq<Byte>, n: nat)
    requires mode != Raw && AllNewlines(lead) && n > 0
    ensures Take(mode, Decoder([], lead + input), n) == Take(mode, Decoder([], input), n)
    decreases |lead|
  {
    if lead == [] {
      assert lead + input == input;
    } else {
      assert (lead + input)[1..] == lead[1..] + input;
      SkipNewlines(mode, lead[1..], input, n);
      assert Next(mode, Decoder([], lead + input)) == Next(mode, Decoder([], lead[1..] + input));
    }
  }

  function FrameAll(mode: Mode, packets: seq<seq<Byte>>): seq<Byte> {
    if packets == [] then [] else Frame(mode, packets[0]) + FrameAll(mode, packets[1..])
  }

  /** Reading packet by packet gives each packet back and leaves no decoded byte behind at any boundary. */
  ghost predicate DecodesTo(mode: Mode, d: Decoder, packets: seq<seq<Byte>>)
    decreases |packets|
  {
    packets != [] ==>
      var (r, d') := Take(mode, d, |packets[0]|);
      r == Some(packets[0]) && d'.pending == [] && DecodesTo(mode, d', packets[1..])
  }

  /** What the reader leaves of a frame once it has read the packet: its newline. */
  function LeftOver(mode: Mode): seq<Byte> {
    if mode == Raw then [] else [LF]
  }

  lemma OneFrame(mode: Mode, lead: seq<Byte>, p: seq<Byte>, rest: seq<Byte>) returns (lead': seq<Byte>)
    requires AllNewlines(lead) && (mode == Raw ==> lead == [])
    ensures AllNewlines(lead') && (mode == Raw ==> lead' == [])
    ensures p != [] ==> lead' == LeftOver(mode)
    ensures Take(mode, Decoder([], lead + (Frame(mode, p) + rest)), |p|) == (Some(p), Decoder([], lead' + rest))
  {
    if mode == Raw {
      assert lead + (p + rest) == p + rest;
      RawRoundTrip(p, rest);
      lead' := [];
      assert lead' + rest == rest;
    } else {
      var encoded := if mode == Base64 then EncodeB64(p) else EncodeHex(p);
      assert Frame(mode, p) + rest == encoded + ([LF] + rest);
      if p == [] {
        lead' := lead + [LF];
        assert lead + ([] + ([LF] + rest)) == lead' + rest;
      } else {
        lead' := [LF];
        SkipNewlines(mode, lead, encoded + ([LF] + rest), |p|);
        if mode == Base64 { Base64RoundTrip(p, [LF] + rest); } else { HexRoundTrip(p, [LF] + rest); }
      }
    }
  }

  lemma {:induction false} FramesAfter(mode: Mode, lead: seq<Byte>, packets: seq<seq<Byte>>)
    requires AllNewlines(lead) && (mode == Raw ==> lead == [])
    ensures DecodesTo(mode, Decoder([], lead + FrameAll(mode, packets)), packets)
    decreases |packets|
  {
    if packets == [] {
    } else {
      var rest := FrameAll(mode, packets[1..]);
      var lead' := OneFrame(mode, lead, packets[0], rest);
      FramesAfter(mode, lead', packets[1..]);
    }
  }

  /** The framing round trip, for every mode and every sequence of packets of any lengths. */
  lemma FramingRoundTrip(mode: Mode, packets: seq<seq<Byte>>)
    ensures DecodesTo(mode, Decoder([], FrameAll(mode, packets)), packets)
  {
    FramesAfter(mode, [], packets);
    assert [] + FrameAll(mode, packets) == FrameAll(mode, packets);
  }

  // ---- the alphabets and the decoders, character by character ----

  /** The base64 alphabet of section 4 of RFC 4648, in both directions. */
  lemma Base64Alphabet(c: Byte, v: Byte)
    ensures B64Val(c) == Some(v) <==>
              || (0x41 <= c <= 0x5A && v == c - 0x41) || (0x61 <= c <= 0x7A && v == c - 0x61 + 26)
              || (0x30 <= c <= 0x39 && v == c - 0x30 + 52) || (c == 0x2B && v == 62) || (c == 0x2F && v == 63)
    ensures v < 64 ==> B64Val(B64Char(v)) == Some(v)
  {
  }

  /** Hexadecimal digits: lower case from the host, either case for the receiver. */
  lemma HexAlphabet(c: Byte, v: Byte)
    ensures HexVal(c) == Some(v) <==>
              || (0x30 <= c <= 0x39 && v == c - 0x30) || (0x61 <= c <= 0x66 && v == c - 0x61 + 10)
              || (0x41 <= c <= 0x46 && v == c - 0x41 + 10)
    ensures v < 10 ==> HexChar(v) == 0x30 + v
    ensures 10 <= v < 16 ==> HexChar(v) == 0x61 + (v - 10)
  {
  }

  /** The base64 reader skips CR and LF, takes `=` from the third place on, and gives up on what it does not know. */
  lemma QuartetLaw(c: Byte, rest: seq<Byte>, vals: seq<Sym>)
    requires |vals| < 4
    ensures c == 0x0A || c == 0x0D ==> Quartet([c] + rest, vals) == Quartet(rest, vals)
    ensures c == 0x3D ==> Quartet([c] + rest, vals) == if |vals| < 2 then (None, rest) else Quartet(rest, vals + [Pad])
    ensures B64Val(c).Some? ==> Quartet([c] + rest, vals) == Quartet(rest, vals + [Val(B64Val(c).value)])
    ensures c != 0x0A && c != 0x0D && c != 0x3D && B64Val(c).None? ==> Quartet([c] + rest, vals) == (None, rest)
    ensures Quartet([], vals) == (None, [])
  {
    assert ([c] + rest)[1..] == rest;
  }

  /** The hex reader skips spaces, tabs, CR and LF, also inside a pair, and gives up on anything else but a digit. */
  lemma HexLaw(c: Byte, rest: seq<Byte>, hi: Option<Byte>)
    ensures c in {0x20, 0x09, 0x0D, 0x0A} ==> HexPair([c] + rest, hi) == HexPair(rest, hi)
    ensures c !in {0x20, 0x09, 0x0D, 0x0A} && HexVal(c).None? ==> HexPair([c] + rest, hi) == (None, rest)
    ensures HexVal(c).Some? && hi.None? ==> HexPair([c] + rest, hi) == HexPair(rest, HexVal(c))
    ensures HexVal(c).Some? && hi.Some? ==> HexPair([c] + rest, hi) == (Some((hi.value << 4) | HexVal(c).value), rest)
    ensures HexPair([], hi) == (None, [])
  {
    assert ([c] + rest)[1..] == rest;
  }

  /** How many bytes four symbols give: one or two when they end in padding, and else three. */
  lemma UnpackLaw(a: Byte, b: Byte, c: Sym, d: Sym)
    ensures |Unpack([Val(a), Val(b), c, d])| == if c == Pad then 1 else if d == Pad then 2 else 3
    ensures Unpack([Val(a), Val(b), c, d])[0] == (a << 2) | (b >> 4)
  {
  }

  /** A test vector of section 10 of RFC 4648, with the newline of the frame. */
  lemma FrameVectors(p: seq<Byte>)
    requires p == [0x66, 0x6F, 0x6F, 0x62, 0x61]
    ensures Frame(Base64, p) == [0x5A, 0x6D, 0x39, 0x76, 0x59, 0x6D, 0x45, 0x3D, 0x0A]
    ensures Frame(Hex, p) == [0x36, 0x36, 0x36, 0x66, 0x36, 0x66, 0x36, 0x32, 0x36, 0x31, 0x0A]
    ensures Frame(Raw, p) == p
  {
    assert p[..3] == [0x66, 0x6F, 0x6F] && p[3..] == [0x62, 0x61];
    assert Group(p[..3]) == [0x5A, 0x6D, 0x39, 0x76] && Group(p[3..]) == [0x59, 0x6D, 0x45, 0x3D];
    assert EncodeB64(p) == [0x5A, 0x6D, 0x39, 0x76] + [0x59, 0x6D, 0x45, 0x3D];
    HexVector(p);
  }

  lemma HexVector(p: seq<Byte>)
    requires p == [0x66, 0x6F, 0x6F, 0x62, 0x61]
    ensures EncodeHex(p) == [0x36, 0x36, 0x36, 0x66, 0x36, 0x66, 0x36, 0x32, 0x36, 0x31]
  {
    HexFirst(p, 0x66, [0x6F, 0x6F, 0x62, 0x61]);
    HexFirst([0x6F, 0x6F, 0x62, 0x61], 0x6F, [0x6F, 0x62, 0x61]);
    HexFirst([0x6F, 0x62, 0x61], 0x6F, [0x62, 0x61]);
    HexFirst([0x62, 0x61], 0x62, [0x61]);
    HexFirst([0x61], 0x61, []);
    assert EncodeHex([]) == [];
  }

  lemma HexFirst(p: seq<Byte>, a: Byte, rest: seq<Byte>)
    requires p == [a] + rest
    ensures EncodeHex(p) == [HexChar(a >> 4), HexChar(a & 15)] + EncodeHex(rest)
  {
    assert p[1..] == rest;
  }
}
