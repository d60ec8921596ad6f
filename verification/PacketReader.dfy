/** The receiver's packet reader: framing buffer, packet buffer and CRC check, updated in place. */
module PacketReader {
  import opened Bytes
  import opened Framing
  import opened Crc16

  const SOH: Byte := 0x01
  const STX: Byte := 0x02
  const PKT_MAX := 1024

  function DataLen(start: Byte): (n: nat)
    ensures n <= PKT_MAX
  {
    if start == STX then 1024 else 128
  }

  datatype BodyResult = TimedOut | Refused | Intact(seqNo: Byte, body: seq<Byte>)

  /** The data and its CRC, once the header gave the packet number. */
  function ReadData(mode: Mode, d: Decoder, len: nat, seqNo: Byte): (BodyResult, Decoder) {
    var (data, d1) := Take(mode, d, len);
    if data.None? then (TimedOut, d1)
    else
      var (crc, d2) := Take(mode, d1, 2);
      if crc.None? then (TimedOut, d2)
      else
        TakeLength(mode, d1, 2);
        if Crc(data.value) == Pair(crc.value[0], crc.value[1]) then (Intact(seqNo, data.value), d2) else (Refused, d2)
  }

  /** The packet after its start byte: number, complement, data and CRC. */
  function ReadBody(mode: Mode, d: Decoder, start: Byte): (BodyResult, Decoder) {
    var (hdr, d1) := Take(mode, d, 2);
    if hdr.None? then (TimedOut, d1)
    else
      TakeLength(mode, d, 2);
      if hdr.value[0] ^ hdr.value[1] != 0xFF then (Refused, d1)
      else ReadData(mode, d1, DataLen(start), hdr.value[0])
  }

  lemma {:induction false} TakeLength(mode: Mode, d: Decoder, n: nat)
    ensures Take(mode, d, n).0.Some? ==> |Take(mode, d, n).0.value| == n
    decreases n
  {
    if n == 0 {
    } else {
      TakeLength(mode, Next(mode, d).1, n - 1);
    }
  }

  class Reader {
    var mode: Mode
    var input: seq<Byte>
    var pending: array<Byte>
    var n: nat
    var i: nat
    var packet: array<Byte>
    var table: array<Word>

    ghost predicate Valid()
      reads this, pending, packet, table
    {
      && pending.Length == 3 && i <= n <= 3
      && packet.Length == PKT_MAX && packet != pending
      && TableReady(table)
    }

    ghost function Decoding(): Decoder
      reads this, pending
      requires pending.Length == 3 && i <= n <= 3
    {
      Decoder(pending[i..n], input)
    }

    constructor (mode: Mode)
      ensures Valid() && fresh(pending) && fresh(packet) && fresh(table)
      ensures Decoding() == Decoder([], []) && this.mode == mode
    {
      this.mode := mode;
      input := [];
      pending := new Byte[3](_ => 0);
      n, i := 0, 0;
      packet := new Byte[PKT_MAX](_ => 0);
      table := new Word[256](_ => 0);
      new;
      InitTable(table);
    }

    method Getc() returns (c: Option<Byte>)
      modifies this`input
      ensures c == if old(input) == [] then None else Some(old(input)[0])
      ensures input == if old(input) == [] then [] else old(input)[1..]
    {
      if input == [] {
        c := None;
      } else {
        c := Some(input[0]);
        input := input[1..];
      }
    }

    /** Collects the four symbols of a base64 group. */
    method ReadQuartet() returns (vals: Option<seq<Sym>>)
      modifies this`input
      ensures (vals, input) == Quartet(old(input), [])
      ensures vals.Some? ==> |vals.value| == 4
    {
      var got: seq<Sym> := [];
      while |got| < 4
        invariant |got| <= 4
        invariant Quartet(input, got) == Quartet(old(input), [])
        decreases |input|, 4 - |got|
      {
        if input == [] { return None; }
        var c := Getc();
        if IsNewline(c.value) {
        } else if c.value == PAD {
          if |got| < 2 { return None; }
          got := got + [Pad];
        } else {
          var v := B64Val(c.value);
          if v.None? { return None; }
          got := got + [Val(v.value)];
        }
      }
      vals := Some(got);
    }

    method ReadHexPair() returns (b: Option<Byte>)
      modifies this`input
      ensures (b, input) == HexPair(old(input), None)
    {
      var hi: Option<Byte> := None;
      while true
        invariant HexPair(input, hi) == HexPair(old(input), None)
        decreases |input|
      {
        if input == [] { return None; }
        var c := Getc();
        if !IsBlank(c.value) {
          var v := HexVal(c.value);
          if v.None? { return None; }
          if hi.None? {
            hi := v;
          } else {
            return Some((hi.value << 4) | v.value);
          }
        }
      }
    }

    /** The next stream byte through the selected framing. */
    method NextByte() returns (b: Option<Byte>)
      requires Valid()
      modifies this`input, this`n, this`i, pending
      ensures Valid() && (b, Decoding()) == Next(mode, old(Decoding()))
    {
      match mode
      case Raw =>
        b := Getc();
        return;
      case Base64 =>
        if i < n {
          b := Some(pending[i]);
          i := i + 1;
          return;
        }
        var vals := ReadQuartet();
        if vals.None? { return None; }
        var out := Unpack(vals.value);
        Store(out);
        assert pending[0..n] == out;
        b := Some(pending[i]);
        i := i + 1;
        assert pending[1..n] == out[1..];
        return;
      case Hex =>
        b := ReadHexPair();
        return;
    }

    method Store(out: seq<Byte>)
      requires pending.Length == 3 && 1 <= |out| <= 3
      modifies this`n, this`i, pending
      ensures i == 0 && n == |out| && pending[..n] == out
    {
      n := 0;
      i := 0;
      while n < |out|
        invariant 0 <= n <= |out| && i == 0
        invariant pending[..n] == out[..n]
      {
        pending[n] := out[n];
        n := n + 1;
      }
    }

    /** Exactly `len` stream bytes into `out`; more than a packet holds is refused unread. */
    method ReadBytes(out: array<Byte>, len: nat) returns (ok: bool)
      requires Valid() && len <= out.Length && out != pending
      modifies this`input, this`n, this`i, pending, out
      ensures Valid()
      ensures len > PKT_MAX ==> !ok && Decoding() == old(Decoding())
      ensures len <= PKT_MAX ==>
                var (bs, d) := Take(mode, old(Decoding()), len);
                Decoding() == d && ok == bs.Some? && (ok ==> out[..len] == bs.value)
    {
      if len > PKT_MAX { return false; }
      var k := 0;
      ghost var d0 := Decoding();
      assert out[..0] == [];
      while k < len
        invariant 0 <= k <= len && Valid()
        invariant Take(mode, d0, k) == (Some(out[..k]), Decoding())
      {
        var b := NextByte();
        TakeOneMore(mode, d0, k, len);
        if b.None? { return false; }
        ghost var before := out[..k];
        out[k] := b.value;
        assert out[..k + 1] == before + [b.value];
        k := k + 1;
      }
      ok := true;
    }

    method RxData(len: nat, seqNo: Byte) returns (r: BodyResult)
      requires Valid() && len <= PKT_MAX
      modifies this`input, this`n, this`i, pending, packet
      ensures Valid() && (r, Decoding()) == ReadData(mode, old(Decoding()), len, seqNo)
      ensures r.Intact? ==> packet[..len] == r.body
    {
      var ok := ReadBytes(packet, len);
      if !ok { return TimedOut; }
      ghost var data := packet[..len];
      var crcb := new Byte[2];
      ok := ReadBytes(crcb, 2);
      if !ok { return TimedOut; }
      assert packet[..len] == data && crcb[..2] == [crcb[0], crcb[1]];
      var want := Pair(crcb[0], crcb[1]);
      var got := CrcUpdate(table, 0, packet[..len]);
      r := if got == want then Intact(seqNo, packet[..len]) else Refused;
    }

    /** One packet after its start byte, checked against its complement and its CRC. */
    method RxPacketBody(start: Byte) returns (r: BodyResult)
      requires Valid()
      modifies this`input, this`n, this`i, pending, packet
      ensures Valid() && (r, Decoding()) == ReadBody(mode, old(Decoding()), start)
      ensures r.Intact? ==> packet[..DataLen(start)] == r.body
    {
      var hdr := new Byte[2];
      var ok := ReadBytes(hdr, 2);
      if !ok { return TimedOut; }
      assert hdr[..2] == [hdr[0], hdr[1]];
      if hdr[0] ^ hdr[1] != 0xFF { return Refused; }
      r := RxData(DataLen(start), hdr[0]);
    }
  }

  /** What `k + 1` reads give in terms of `k` reads, and that a failed read stays failed. */
  lemma TakeOneMore(mode: Mode, d: Decoder, k: nat, len: nat)
    requires k < len && Take(mode, d, k).0.Some?
    ensures var (bs, d') := Take(mode, d, k);
            var (b, d'') := Next(mode, d');
            && Take(mode, d, k + 1) == (if b.None? then None else Some(bs.value + [b.value]), d'')
            && (b.None? ==> Take(mode, d, len) == (None, d''))
  {
    var (bs, d') := Take(mode, d, k);
    TakeSplit(mode, d, k, 1);
    TakeSplit(mode, d, k, len - k);
    var (b, d'') := Next(mode, d');
    assert Take(mode, d'', 0) == (Some([]), d'');
    assert b.Some? ==> [b.value] + [] == [b.value];
  }

  // ---- a packet that was sent is a packet that is read ----

  function LowByte(crc: Word): Byte {
    LowByteFits(crc);
    (crc & 0xFF) as bv8
  }

  lemma LowByteFits(crc: Word)
    ensures crc & 0xFF < 256
  {
  }

  lemma PairOfHalves(crc: Word)
    ensures Pair(HighByte(crc), LowByte(crc)) == crc
  {
  }

  /** The CRC goes high byte first. */
  lemma HighByteFirst()
    ensures Pair(0x31, 0xC3) == 0x31C3 && HighByte(0x31C3) == 0x31 && LowByte(0x31C3) == 0xC3
  {
  }

  lemma ComplementCheck(s: Byte)
    ensures s ^ (0xFF ^ s) == 0xFF
  {
  }

  /** The bytes the host sends for one packet. */
  function Build(start: Byte, seqNo: Byte, body: seq<Byte>): seq<Byte> {
    [start] + [seqNo, 0xFF ^ seqNo] + body + [HighByte(Crc(body)), LowByte(Crc(body))]
  }

  lemma SplitFirst(mode: Mode, d: Decoder, p: seq<Byte>, m: nat, d': Decoder)
    requires m <= |p| && Take(mode, d, |p|) == (Some(p), d')
    ensures var (a, d1) := Take(mode, d, m); a == Some(p[..m]) && Take(mode, d1, |p| - m) == (Some(p[m..]), d')
  {
    TakePrefixSome(mode, d, m, |p|);
    TakeSplit(mode, d, m, |p| - m);
    var (a, d1) := Take(mode, d, m);
    TakeLength(mode, d, m);
    var b := Take(mode, d1, |p| - m).0;
    assert p == a.value + b.value;
  }

  lemma {:induction false} TakePrefixSome(mode: Mode, d: Decoder, m: nat, n: nat)
    requires m <= n && Take(mode, d, n).0.Some?
    ensures Take(mode, d, m).0.Some?
    decreases m
  {
    if m == 0 {
    } else {
      TakePrefixSome(mode, Next(mode, d).1, m - 1, n - 1);
    }
  }

  function CrcBytes(body: seq<Byte>): seq<Byte> {
    [HighByte(Crc(body)), LowByte(Crc(body))]
  }

  lemma DataReadBack(mode: Mode, d: Decoder, seqNo: Byte, body: seq<Byte>, end: Decoder)
    requires Take(mode, d, |body| + 2) == (Some(body + CrcBytes(body)), end)
    ensures ReadData(mode, d, |body|, seqNo) == (Intact(seqNo, body), end)
  {
    var p := body + CrcBytes(body);
    SplitFirst(mode, d, p, |body|, end);
    assert p[..|body|] == body && p[|body|..] == CrcBytes(body);
    PairOfHalves(Crc(body));
  }

  lemma BodyReadBack(mode: Mode, d: Decoder, start: Byte, seqNo: Byte, body: seq<Byte>, end: Decoder)
    requires |body| == DataLen(start)
    requires Take(mode, d, |body| + 4) == (Some([seqNo, 0xFF ^ seqNo] + (body + CrcBytes(body))), end)
    ensures ReadBody(mode, d, start) == (Intact(seqNo, body), end)
  {
    var hdr := [seqNo, 0xFF ^ seqNo];
    var p := hdr + (body + CrcBytes(body));
    SplitFirst(mode, d, p, 2, end);
    assert p[..2] == hdr && p[2..] == body + CrcBytes(body);
    ComplementCheck(seqNo);
    DataReadBack(mode, Take(mode, d, 2).1, seqNo, body, end);
  }

  lemma BuiltReadBack(mode: Mode, d: Decoder, start: Byte, seqNo: Byte, body: seq<Byte>, p: seq<Byte>, end: Decoder)
    requires |body| == DataLen(start) && p == [start] + ([seqNo, 0xFF ^ seqNo] + (body + CrcBytes(body)))
    requires Take(mode, d, |p|) == (Some(p), end)
    ensures var (first, d1) := Next(mode, d);
            first == Some(start) && ReadBody(mode, d1, start) == (Intact(seqNo, body), end)
  {
    SplitFirst(mode, d, p, 1, end);
    TakeSingle(mode, d);
    assert p[..1] == [start] && p[1..] == [seqNo, 0xFF ^ seqNo] + (body + CrcBytes(body));
    BodyReadBack(mode, Next(mode, d).1, start, seqNo, body, end);
  }

  /**
   * Every packet the host builds and frames is read back intact in every framing mode, with no
   * decoded byte left over, whatever follows it on the line.
   */
  lemma PacketRoundTrip(mode: Mode, lead: seq<Byte>, start: Byte, seqNo: Byte, body: seq<Byte>, rest: seq<Byte>)
    requires AllNewlines(lead) && (mode == Raw ==> lead == [])
    requires |body| == DataLen(start)
    ensures var (first, d) := Next(mode, Decoder([], lead + (Frame(mode, Build(start, seqNo, body)) + rest)));
            && first == Some(start)
            && ReadBody(mode, d, start) == (Intact(seqNo, body), Decoder([], LeftOver(mode) + rest))
  {
    var p := Build(start, seqNo, body);
    Built(start, seqNo, body);
    var lead' := OneFrame(mode, lead, p, rest);
    FramedReadBack(mode, lead + (Frame(mode, p) + rest), start, seqNo, body, p, LeftOver(mode) + rest);
  }

  lemma Built(start: Byte, seqNo: Byte, body: seq<Byte>)
    ensures Build(start, seqNo, body) == [start] + ([seqNo, 0xFF ^ seqNo] + (body + CrcBytes(body)))
  {
  }

  lemma FramedReadBack(mode: Mode, line: seq<Byte>, start: Byte, seqNo: Byte, body: seq<Byte>, p: seq<Byte>,
      after: seq<Byte>)
    requires |body| == DataLen(start) && p == [start] + ([seqNo, 0xFF ^ seqNo] + (body + CrcBytes(body)))
    requires Take(mode, Decoder([], line), |p|) == (Some(p), Decoder([], after))
    ensures var (first, d) := Next(mode, Decoder([], line));
            first == Some(start) && ReadBody(mode, d, start) == (Intact(seqNo, body), Decoder([], after))
  {
    BuiltReadBack(mode, Decoder([], line), start, seqNo, body, p, Decoder([], after));
  }

  lemma TakeSingle(mode: Mode, d: Decoder)
    ensures var (b, d') := Next(mode, d); Take(mode, d, 1) == (if b.None? then None else Some([b.value]), d')
  {
    var (b, d') := Next(mode, d);
    assert Take(mode, d', 0) == (Some([]), d');
    assert b.Some? ==> [b.value] + [] == [b.value];
  }

  // ---- exactly the packets that were sent are taken for intact ----

  /** The bytes of a packet after its start byte. */
  function Tail(number: Byte, body: seq<Byte>): seq<Byte> {
    [number, 0xFF ^ number] + (body + CrcBytes(body))
  }

  /** Data is taken for intact exactly when it is followed by its own CRC. */
  lemma IntactData(mode: Mode, d: Decoder, len: nat, number: Byte, n: Byte, body: seq<Byte>, end: Decoder)
    ensures ReadData(mode, d, len, number) == (Intact(n, body), end)
            <==> n == number && |body| == len && Take(mode, d, len + 2) == (Some(body + CrcBytes(body)), end)
  {
    if n == number && |body| == len && Take(mode, d, len + 2) == (Some(body + CrcBytes(body)), end) {
      DataReadBack(mode, d, number, body, end);
    }
    if ReadData(mode, d, len, number) == (Intact(n, body), end) {
      var d1 := Take(mode, d, len).1;
      var crc := Take(mode, d1, 2).0.value;
      TakeLength(mode, d, len);
      TakeLength(mode, d1, 2);
      HalvesOfPair(crc[0], crc[1]);
      assert crc == CrcBytes(body);
      TakeBoth(mode, d, body, d1, crc, end);
    }
  }

  lemma HalvesOfPair(h: Byte, l: Byte)
    ensures HighByte(Pair(h, l)) == h && LowByte(Pair(h, l)) == l
  {
  }

  lemma Complement(a: Byte, b: Byte)
    ensures a ^ b == 0xFF <==> b == 0xFF ^ a
  {
  }

  lemma IntactHeader(mode: Mode, d: Decoder, start: Byte, n: Byte, body: seq<Byte>, end: Decoder) returns (d1: Decoder)
    requires ReadBody(mode, d, start) == (Intact(n, body), end)
    ensures Take(mode, d, 2) == (Some([n, 0xFF ^ n]), d1)
    ensures ReadData(mode, d1, DataLen(start), n) == (Intact(n, body), end)
  {
    var hdr := Take(mode, d, 2).0;
    d1 := Take(mode, d, 2).1;
    TakeLength(mode, d, 2);
    Complement(hdr.value[0], hdr.value[1]);
    IntactData(mode, d1, DataLen(start), hdr.value[0], n, body, end);
    assert hdr.value == [n, 0xFF ^ n];
  }

  lemma IntactIsSent(mode: Mode, d: Decoder, start: Byte, n: Byte, body: seq<Byte>, end: Decoder)
    requires ReadBody(mode, d, start) == (Intact(n, body), end)
    ensures |body| == DataLen(start) && Take(mode, d, |body| + 4) == (Some(Tail(n, body)), end)
  {
    var d1 := IntactHeader(mode, d, start, n, body, end);
    IntactData(mode, d1, DataLen(start), n, n, body, end);
    TakeBoth(mode, d, [n, 0xFF ^ n], d1, body + CrcBytes(body), end);
  }

  /**
   * A packet is taken for intact exactly when the bytes read are its number, the complement of the number, the
   * data and the CRC of the data, whatever the framing.
   */
  lemma IntactExactly(mode: Mode, d: Decoder, start: Byte, n: Byte, body: seq<Byte>, end: Decoder)
    ensures ReadBody(mode, d, start) == (Intact(n, body), end)
            <==> |body| == DataLen(start) && Take(mode, d, |body| + 4) == (Some(Tail(n, body)), end)
  {
    if ReadBody(mode, d, start) == (Intact(n, body), end) {
      IntactIsSent(mode, d, start, n, body, end);
    } else if |body| == DataLen(start) && Take(mode, d, |body| + 4) == (Some(Tail(n, body)), end) {
      BodyReadBack(mode, d, start, n, body, end);
    }
  }

  /** A short packet has 128 bytes of data and a long one 1024. */
  lemma DataLengths()
    ensures DataLen(0x01) == 128 && DataLen(0x02) == 1024
  {
  }

  lemma OneFlipped(n: Byte, x: Byte, y: Byte)
    requires (x == n && y != 0xFF ^ n) || (x != n && y == 0xFF ^ n)
    ensures x ^ y != 0xFF
  {
  }

  /** A header with one of number and complement damaged is refused at once. */
  lemma DamagedHeader(mode: Mode, d: Decoder, start: Byte, n: Byte, x: Byte, y: Byte, d1: Decoder)
    requires Take(mode, d, 2) == (Some([x, y]), d1)
    requires (x == n && y != 0xFF ^ n) || (x != n && y == 0xFF ^ n)
    ensures ReadBody(mode, d, start) == (Refused, d1)
  {
    OneFlipped(n, x, y);
  }

  /**
   * A framed packet damaged in its number or in the complement of its number, but not in both, is never taken for
   * intact, in any framing and with any data and CRC.
   */
  lemma DamagedNumberRefused(mode: Mode, lead: seq<Byte>, start: Byte, n: Byte, x: Byte, y: Byte, rest: seq<Byte>,
                             after: seq<Byte>)
    requires AllNewlines(lead) && (mode == Raw ==> lead == [])
    requires (x == n && y != 0xFF ^ n) || (x != n && y == 0xFF ^ n)
    ensures var (first, d) := Next(mode, Decoder([], lead + (Frame(mode, [start, x, y] + rest) + after)));
            first == Some(start) && ReadBody(mode, d, start).0 == Refused
  {
    var p := [start, x, y] + rest;
    var _ := OneFrame(mode, lead, p, after);
    DamagedReadBack(mode, Decoder([], lead + (Frame(mode, p) + after)), start, n, x, y, rest, p,
                    Decoder([], LeftOver(mode) + after));
  }

  lemma DamagedReadBack(mode: Mode, d: Decoder, start: Byte, n: Byte, x: Byte, y: Byte, rest: seq<Byte>, p: seq<Byte>,
                        end: Decoder)
    requires p == [start, x, y] + rest && Take(mode, d, |p|) == (Some(p), end)
    requires (x == n && y != 0xFF ^ n) || (x != n && y == 0xFF ^ n)
    ensures var (first, d1) := Next(mode, d); first == Some(start) && ReadBody(mode, d1, start).0 == Refused
  {
    SplitFirst(mode, d, p, 1, end);
    TakeSingle(mode, d);
    assert p[..1] == [start];
    DamagedRest(mode, Next(mode, d).1, start, n, x, y, rest, p[1..], end);
  }

  lemma DamagedRest(mode: Mode, d: Decoder, start: Byte, n: Byte, x: Byte, y: Byte, rest: seq<Byte>, q: seq<Byte>,
                    end: Decoder)
    requires q == [x, y] + rest && Take(mode, d, |q|) == (Some(q), end)
    requires (x == n && y != 0xFF ^ n) || (x != n && y == 0xFF ^ n)
    ensures ReadBody(mode, d, start).0 == Refused
  {
    SplitFirst(mode, d, q, 2, end);
    assert q[..2] == [x, y];
    DamagedHeader(mode, d, start, n, x, y, Take(mode, d, 2).1);
  }

  /** A packet damaged within two adjacent bytes of its data and CRC is never taken for intact. */
  lemma DamagedPacketRefused(mode: Mode, d: Decoder, len: nat, seqNo: Byte, sent: seq<Byte>, got: seq<Byte>, i: nat)
    requires |sent| == |got| == len + 2 && i + 2 <= |sent| && sent != got
    requires forall k :: 0 <= k < |sent| && k != i && k != i + 1 ==> sent[k] == got[k]
    requires Crc(sent[..len]) == Pair(sent[len], sent[len + 1])
    requires Take(mode, d, len + 2).0 == Some(got)
    ensures ReadData(mode, d, len, seqNo).0 == Refused
  {
    SplitFirst(mode, d, got, len, Take(mode, d, len + 2).1);
    assert got[len..] == [got[len], got[len + 1]];
    DamageIsCaught(sent, got, i);
  }
}
