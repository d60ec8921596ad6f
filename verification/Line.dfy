/** The upload as bytes on the line: what the host sends, and what the receiver makes of it. */
module Line {
  import opened Bytes
  import Block0
  import opened Framing
  import opened PacketNumber
  import opened PacketReader
  import opened Receiver
  import opened Sender

  const EOT: Byte := 0x04
  const CAN: Byte := 0x18

  // ---- the host's bytes ----

  /** Block 0 is always a short packet; the data packets are short or long as the upload says. */
  function StartByte(job: Upload, i: nat): Byte {
    if i == 0 || job.packetLen == 128 then SOH else STX
  }

  /** The packets in order, and after them the EOT. */
  function Sent(job: Upload, i: nat): seq<Byte>
    requires i <= job.PacketCount()
  {
    if i < job.PacketCount() then Build(StartByte(job, i), LowByteOf(i), job.Body(i)) else [EOT]
  }

  /** The framed packets from `i` on, and the framed EOT. */
  function FramesFrom(mode: Mode, job: Upload, i: nat): seq<Byte>
    decreases job.PacketCount() + 1 - i
  {
    if i > job.PacketCount() then [] else Frame(mode, Sent(job, i)) + FramesFrom(mode, job, i + 1)
  }

  // ---- the receiver's events ----

  function BodyEvent(r: BodyResult): Event {
    if r.Intact? then Packet(ValueOf(r.seqNo), r.body) else BadBody
  }

  /** One read of the line: a start byte, and the packet behind it if it starts one. */
  function ReadEvent(mode: Mode, d: Decoder): (Event, Decoder) {
    var (start, d1) := Next(mode, d);
    if start.None? then (Quiet, d1)
    else if start.value == EOT then (Eot, d1)
    else if start.value == CAN then (Cancel, d1)
    else if start.value != SOH && start.value != STX then (BadStart, d1)
    else
      var (r, d2) := ReadBody(mode, d1, start.value);
      (BodyEvent(r), d2)
  }

  method HearEvent(reader: Reader) returns (ev: Event)
    requires reader.Valid()
    modifies reader`input, reader`n, reader`i, reader.pending, reader.packet
    ensures reader.Valid() && (ev, reader.Decoding()) == ReadEvent(reader.mode, old(reader.Decoding()))
  {
    var start := reader.NextByte();
    if start.None? { return Quiet; }
    if start.value == EOT { return Eot; }
    if start.value == CAN { return Cancel; }
    if start.value != SOH && start.value != STX { return BadStart; }
    var r := reader.RxPacketBody(start.value);
    ev := BodyEvent(r);
  }

  /** The event packet `i` should be, or the EOT. */
  function EventAt(job: Upload, i: nat): Event
    requires i <= job.PacketCount()
  {
    if i < job.PacketCount() then Packet(i % 256, job.Body(i)) else Eot
  }

  predicate HeaderFits(job: Upload) {
    |job.Body(0)| == Block0.HEADER_LEN
  }

  /** The line when it holds packet `i` and what follows it, and at most a newline before it. */
  function LineAt(mode: Mode, job: Upload, i: nat): Decoder {
    Decoder([], (if i == 0 then [] else LeftOver(mode)) + FramesFrom(mode, job, i))
  }

  /** A read that finds a start byte and an intact packet behind it. */
  lemma PacketEvent(mode: Mode, d: Decoder, start: Byte, number: Byte, body: seq<Byte>, end: Decoder)
    requires start == SOH || start == STX
    requires var (first, d1) := Next(mode, d);
             first == Some(start) && ReadBody(mode, d1, start) == (Intact(number, body), end)
    ensures ReadEvent(mode, d) == (Packet(ValueOf(number), body), end)
  {
  }

  lemma EotEvent(mode: Mode, d: Decoder, end: Decoder)
    requires Take(mode, d, 1) == (Some([EOT]), end)
    ensures ReadEvent(mode, d) == (Eot, end)
  {
    TakeSingle(mode, d);
  }

  lemma NextPacket(mode: Mode, job: Upload, i: nat, lead: seq<Byte>)
    requires HeaderFits(job) && i < job.PacketCount() && AllNewlines(lead) && (mode == Raw ==> lead == [])
    ensures ReadEvent(mode, Decoder([], lead + FramesFrom(mode, job, i))) == (EventAt(job, i), LineAt(mode, job, i + 1))
  {
    var rest := FramesFrom(mode, job, i + 1);
    var start, number, body := StartByte(job, i), LowByteOf(i), job.Body(i);
    PacketRoundTrip(mode, lead, start, number, body, rest);
    PacketEvent(mode, Decoder([], lead + (Frame(mode, Build(start, number, body)) + rest)), start, number, body,
                Decoder([], LeftOver(mode) + rest));
    ValueOfLowByte(i);
  }

  /** Reading the line at packet `i` gives that packet, or the EOT, and leaves the line at the next one. */
  lemma NextEvent(mode: Mode, job: Upload, i: nat)
    requires HeaderFits(job) && i <= job.PacketCount()
    ensures ReadEvent(mode, LineAt(mode, job, i)) == (EventAt(job, i), LineAt(mode, job, i + 1))
  {
    var lead := if i == 0 then [] else LeftOver(mode);
    if i < job.PacketCount() {
      NextPacket(mode, job, i, lead);
    } else {
      var rest := FramesFrom(mode, job, i + 1);
      var _ := OneFrame(mode, lead, [EOT], rest);
      EotEvent(mode, Decoder([], lead + (Frame(mode, [EOT]) + rest)), Decoder([], LeftOver(mode) + rest));
    }
  }

  /** A packet whose number or complement was damaged on the line is heard as a bad packet. */
  lemma DamagedNumberHeard(mode: Mode, lead: seq<Byte>, start: Byte, n: Byte, x: Byte, y: Byte, rest: seq<Byte>,
                           after: seq<Byte>)
    requires AllNewlines(lead) && (mode == Raw ==> lead == []) && (start == SOH || start == STX)
    requires (x == n && y != 0xFF ^ n) || (x != n && y == 0xFF ^ n)
    ensures ReadEvent(mode, Decoder([], lead + (Frame(mode, [start, x, y] + rest) + after))).0 == BadBody
  {
    DamagedNumberRefused(mode, lead, start, n, x, y, rest, after);
  }

  /** What a read makes of the byte it finds: silence, EOT, CAN, a stray byte, or the start of a packet. */
  lemma StartBytes(mode: Mode, d: Decoder)
    ensures var (start, d1) := Next(mode, d);
            var ev := ReadEvent(mode, d).0;
            && (ev == Quiet <==> start.None?)
            && (ev == Eot <==> start == Some(0x04)) && (ev == Cancel <==> start == Some(0x18))
            && (ev == BadStart <==> start.Some? && start.value !in {0x01, 0x02, 0x04, 0x18})
            && (ev.Packet? || ev == BadBody <==> start == Some(0x01) || start == Some(0x02))
  {
  }

  /** The line holds a whole packet with this number and body. */
  ghost predicate Carries(mode: Mode, d: Decoder, n: nat, body: seq<Byte>) {
    exists b: Byte, end: Decoder :: ValueOf(b) == n && Take(mode, d, |body| + 4) == (Some(Tail(b, body)), end)
  }

  lemma BodyHeard(mode: Mode, d: Decoder, start: Byte, n: nat, body: seq<Byte>)
    ensures BodyEvent(ReadBody(mode, d, start).0) == Packet(n, body) <==>
              |body| == DataLen(start) && Carries(mode, d, n, body)
  {
    var (r, end) := ReadBody(mode, d, start);
    if r.Intact? { IntactExactly(mode, d, start, r.seqNo, r.body, end); }
    if |body| == DataLen(start) && Carries(mode, d, n, body) {
      var b: Byte, end': Decoder :| ValueOf(b) == n && Take(mode, d, |body| + 4) == (Some(Tail(b, body)), end');
      IntactExactly(mode, d, start, b, body, end');
    }
  }

  /** A packet is heard exactly when its bytes, with complement and CRC, are read after a start byte of its length. */
  lemma PacketHeard(mode: Mode, d: Decoder, n: nat, body: seq<Byte>)
    ensures var (start, d1) := Next(mode, d);
            ReadEvent(mode, d).0 == Packet(n, body) <==>
              && ((start == Some(0x01) && |body| == 128) || (start == Some(0x02) && |body| == 1024))
              && Carries(mode, d1, n, body)
  {
    var (start, d1) := Next(mode, d);
    StartBytes(mode, d);
    if start.Some? { BodyHeard(mode, d1, start.value, n, body); }
  }

  /** The first events of an undisturbed upload. */
  function EventsBefore(job: Upload, n: nat): (events: seq<Event>)
    requires n <= job.PacketCount() + 1
    ensures |events| == n
  {
    if n == 0 then [] else EventsBefore(job, n - 1) + [EventAt(job, n - 1)]
  }

  lemma OneMoreEvent(job: Upload, events: seq<Event>, n: nat, ev: Event)
    requires n <= job.PacketCount() && events == EventsBefore(job, n) && ev == EventAt(job, n)
    ensures events + [ev] == EventsBefore(job, n + 1)
    ensures ev == Eot <==> n == job.PacketCount()
  {
  }

  method HearNext(reader: Reader, events: seq<Event>, ghost job: Upload, ghost n: nat)
    returns (events': seq<Event>, done: bool)
    requires reader.Valid() && HeaderFits(job) && n <= job.PacketCount()
    requires reader.Decoding() == LineAt(reader.mode, job, n) && events == EventsBefore(job, n)
    modifies reader`input, reader`n, reader`i, reader.pending, reader.packet
    ensures events' == EventsBefore(job, n + 1) && (done <==> n == job.PacketCount())
    ensures reader.Valid() && reader.Decoding() == LineAt(reader.mode, job, n + 1)
  {
    NextEvent(reader.mode, job, n);
    var ev := HearEvent(reader);
    OneMoreEvent(job, events, n, ev);
    events', done := events + [ev], ev == Eot;
  }

  /** Reads on until the EOT. */
  method HearRest(reader: Reader, heard: seq<Event>, ghost job: Upload, ghost n: nat, ghost count: nat)
    returns (events: seq<Event>)
    requires reader.Valid() && HeaderFits(job) && n <= count == job.PacketCount()
    requires reader.Decoding() == LineAt(reader.mode, job, n) && heard == EventsBefore(job, n)
    modifies reader`input, reader`n, reader`i, reader.pending, reader.packet
    ensures events == EventsBefore(job, count + 1)
    ensures reader.Valid() && reader.Decoding() == LineAt(reader.mode, job, count + 1)
    decreases count - n
  {
    var done;
    events, done := HearNext(reader, heard, job, n);
    if !done {
      events := HearRest(reader, events, job, n + 1, count);
    }
  }

  /**
   * In every framing mode the receiver reads from the host's bytes exactly the packets of the upload, in
   * order and intact, then the EOT, and nothing but the last newline is left over.
   */
  method HearAll(mode: Mode, input: seq<Byte>, ghost job: Upload) returns (events: seq<Event>, left: seq<Byte>)
    requires HeaderFits(job) && input == FramesFrom(mode, job, 0)
    ensures events == EventsBefore(job, job.PacketCount() + 1) && left == LeftOver(mode)
  {
    var reader := new Reader(mode);
    reader.input := input;
    assert LineAt(mode, job, 0).input == input;
    events := HearRest(reader, [], job, 0, job.PacketCount());
    left := reader.input;
  }
}
