/** The receive session as it runs: counters updated in place, bytes staged into the ramdisk. */
module Session {
  import opened Bytes
  import Block0
  import P = Progress
  import Ramdisk
  import opened Receiver
  import opened Staging

  class Session {
    const client: Client
    const start: nat
    var phase: Phase
    var expected: nat
    var total: nat
    var ysize: Option<nat>
    var retries: nat
    var reported: nat
    ghost const store: Store
    ghost const disk0: seq<Byte>
    /** The bytes staged so far; only their number and the staging buffer exist at run time. */
    ghost var staged: seq<Byte>

    ghost function State(): Rx
      reads this
    {
      Rx(phase, expected, staged, ysize, retries)
    }

    ghost predicate Valid()
      reads this, client, client.staging, client.disk, client.disk.handle, client.disk.va, client.disk.mem
    {
      && client.Valid() && client.Describes(store) && store.start == start
      && total == |staged|
      && (Live(phase) ==> reported == total / P.EVERY)
      && (ysize.Some? ==> ysize.value < P.U64)
      && |disk0| == Ramdisk.DISK_BYTES
      && (Live(phase) || phase.AwaitEot? ==> client.Tracks(start, disk0, staged))
      && (phase.Finished? ==>
            start * Ramdisk.BLOCK_SIZE + |Padded(staged)| <= Ramdisk.DISK_BYTES
            && client.disk.Flat() == DiskAfter(disk0, start, staged))
    }

    constructor (client: Client, start: nat, ghost store: Store)
      requires client.Valid() && client.Describes(store) && store.start == start
      ensures Valid() && State() == INITIAL
      ensures this.client == client && this.start == start && this.store == store && disk0 == client.disk.Flat()
    {
      this.client := client;
      this.start := start;
      this.store := store;
      disk0 := client.disk.Flat();
      phase, expected, total, ysize, retries, reported := Handshake(0), 1, 0, None, 0, 0;
      staged := [];
      new;
      assert Overlay(disk0, start * Ramdisk.BLOCK_SIZE, []) == disk0;
    }

    /** The bytes of an accepted packet, up to the declared size or the first failed block write. */
    method StagePacket(body: seq<Byte>) returns (ok: bool)
      requires Valid() && Live(phase)
      modifies this`total, this`staged, client.staging, client.disk.va, client.disk.mem
      ensures client.Valid() && client.Describes(store) && total == |staged|
      ensures (staged, ok) == StageAll(store, old(staged), body, ysize)
      ensures ok ==> client.Tracks(start, disk0, staged)
    {
      var bi := 0;
      while bi < |body|
        invariant 0 <= bi <= |body| && client.Valid() && client.Describes(store) && total == |staged|
        invariant client.Tracks(start, disk0, staged)
        invariant StageAll(store, staged, body[bi..], ysize) == StageAll(store, old(staged), body, ysize)
      {
        if ysize.Some? && total >= ysize.value { break; }
        assert body[bi..][1..] == body[bi + 1..];
        ghost var next := Receiver.StageByte(store, staged, body[bi]);
        var rc;
        rc, total := client.StageByte(start, total, body[bi], store, disk0, staged);
        staged := next.0;
        if rc != Ramdisk.OK { return false; }
        bi := bi + 1;
      }
      ok := true;
    }

    /** A packet that fails its checks: NAK, and abort after the eleventh rejection in a row. */
    method RejectPacket() returns (out: seq<Reply>)
      requires Valid() && phase.Packets?
      modifies this`phase, this`retries
      ensures Valid() && (State(), out) == Receiver.RejectPacket(old(State()))
    {
      out := [Nak];
      retries := retries + 1;
      if retries > MAX_RETRIES {
        phase := Failed(-3);
        out := out + [Can, Can];
        assert out == [Nak, Can, Can];
      }
    }

    /** Silence or a stray byte: the eleventh rejection in a row aborts without a NAK. */
    method RejectByte() returns (out: seq<Reply>)
      requires Valid() && phase.Packets?
      modifies this`phase, this`retries
      ensures Valid() && (State(), out) == Receiver.RejectByte(old(State()))
    {
      retries := retries + 1;
      if retries > MAX_RETRIES {
        phase := Failed(-3);
        return [Can, Can];
      }
      out := [Nak];
    }

    /** Leaving the packet loop: flush the partial block and report. */
    method Finish(replies: seq<Reply>) returns (out: seq<Reply>)
      requires Valid() && (phase.Packets? || phase.AwaitEot?)
      modifies this`phase, client.staging, client.disk.va, client.disk.mem
      ensures Valid() && (State(), out) == Receiver.Finish(store, old(State()), replies)
    {
      var rc := client.StageFlush(start, total, store, disk0, staged);
      if rc != Ramdisk.OK {
        phase := Failed(-9);
        return replies;
      }
      phase := Finished(total);
      out := replies + [DoneLine(total)];
    }

    method AcceptData(body: seq<Byte>) returns (out: seq<Reply>)
      requires Valid() && phase.Packets?
      modifies this`phase, this`expected, this`retries, this`total, this`staged, this`reported
      modifies client.staging, client.disk.va, client.disk.mem
      ensures Valid() && (State(), out) == Receiver.AcceptData(store, old(State()), body)
    {
      ghost var before := total;
      StageAllAppends(store, staged, body, ysize);
      var ok := StagePacket(body);
      if !ok {
        phase := Failed(-3);
        return [Can, Can];
      }
      expected := expected + 1;
      if ysize.Some? && total >= ysize.value {
        phase := AwaitEot;
        return [Ack];
      }
      retries := 0;
      ReportedMoves(before, total);
      out := WriteProgress();
      out := [Ack] + out;
    }

    /** The progress line, each time the byte count has passed another multiple of 16 blocks. */
    method WriteProgress() returns (out: seq<Reply>)
      requires total < P.U64 && (ysize.Some? ==> ysize.value < P.U64)
      modifies this`reported
      ensures reported == if total / P.EVERY > old(reported) then total / P.EVERY else old(reported)
      ensures out == if total / P.EVERY > old(reported) then ProgressLine(total, SizeOrZero(ysize)) else []
    {
      var blk := total / P.EVERY;
      if total > 0 && blk > reported {
        reported := blk;
        var n := P.PrintU64(total);
        var size := P.PrintU64(SizeOrZero(ysize));
        out := SendText(P.OPENING + n + P.MIDDLE + size + P.CLOSING);
      } else {
        out := [];
      }
    }

    method ParseHeader(body: seq<Byte>) returns (size: Option<nat>)
      ensures size == Block0.ParseBlock0(body) && (size.Some? ==> size.value < P.U64)
    {
      var k := Block0.FindNul(body);
      k := k + 1;
      if k >= |body| { return None; }
      var n, ok := Block0.AtoulBounded(body[k..]);
      Block0.ParsedFits(body);
      P.WordFits();
      size := if ok then Some(n) else None;
    }

    /** Block 0 declares the size, or is rejected. */
    method OnHeader(body: seq<Byte>) returns (out: seq<Reply>)
      requires Valid() && phase.Packets? && expected == 1 && ysize.None?
      modifies this`phase, this`retries, this`ysize
      ensures Valid() && (State(), out) == Receiver.OnPacket(store, old(State()), 0, body)
    {
      var size := ParseHeader(body);
      if size.None? {
        out := RejectPacket();
      } else {
        ysize := size;
        out := [Ack];
      }
    }

    method OnPacket(seqNo: nat, body: seq<Byte>) returns (out: seq<Reply>)
      requires Valid() && phase.Packets?
      modifies this`phase, this`expected, this`retries, this`total, this`staged, this`ysize, this`reported
      modifies client.staging, client.disk.va, client.disk.mem
      ensures Valid() && (State(), out) == Receiver.OnPacket(store, old(State()), seqNo, body)
    {
      if seqNo == 0 && expected == 1 && ysize.None? {
        out := OnHeader(body);
        return;
      }
      if seqNo != expected % 256 {
        if seqNo == (expected + 255) % 256 { return [Ack]; }
        phase := Failed(-3);
        return [Can, Can];
      }
      out := AcceptData(body);
    }

    /** One event of the line. The ramdisk follows the model at every step. */
    method Handle(ev: Event) returns (out: seq<Reply>)
      requires Valid()
      modifies this`phase, this`expected, this`retries, this`total, this`staged, this`ysize, this`reported
      modifies client.staging, client.disk.va, client.disk.mem
      ensures Valid() && (State(), out) == Step(store, old(State()), ev)
    {
      match phase
      case Handshake(tries) => out := OnHandshake(ev, tries);
      case Packets => out := OnLine(ev);
      case AwaitEot => out := Finish(if ev == Eot then [Ack] else []);
      case _ => out := [];
    }

    method OnHandshake(ev: Event, tries: nat) returns (out: seq<Reply>)
      requires Valid() && phase == Handshake(tries)
      modifies this`phase, this`expected, this`retries, this`total, this`staged, this`ysize, this`reported
      modifies client.staging, client.disk.va, client.disk.mem
      ensures Valid() && (State(), out) == Step(store, old(State()), ev)
    {
      match ev
      case Packet(seqNo, body) =>
        phase := Packets;
        out := OnPacket(seqNo, body);
      case BadBody =>
        phase := Packets;
        out := RejectPacket();
      case Cancel =>
        phase := Failed(-2);
        out := [];
      case _ => out := AskAgain(tries);
    }

    /** Asks for the transfer again, up to the cap. */
    method AskAgain(tries: nat) returns (out: seq<Reply>)
      requires Valid() && phase == Handshake(tries)
      modifies this`phase
      ensures Valid() && (State(), out) == Step(store, old(State()), Quiet)
    {
      if tries + 1 < C_TRIES {
        phase := Handshake(tries + 1);
        out := [ChrC];
      } else {
        phase := Failed(-2);
        out := [];
      }
    }

    method OnLine(ev: Event) returns (out: seq<Reply>)
      requires Valid() && phase.Packets?
      modifies this`phase, this`expected, this`retries, this`total, this`staged, this`ysize, this`reported
      modifies client.staging, client.disk.va, client.disk.mem
      ensures Valid() && (State(), out) == Step(store, old(State()), ev)
    {
      match ev
      case Packet(seqNo, body) => out := OnPacket(seqNo, body);
      case BadBody => out := RejectPacket();
      case Cancel =>
        phase := Failed(-2);
        out := [];
      case Eot => out := Finish([Ack]);
      case CapReached =>
        phase := Failed(-3);
        out := [Can, Can];
      case _ => out := RejectByte();
    }

    /**
     * A whole session over the events of the line. It behaves as the receiver model does, and when it
     * finishes the ramdisk holds the staged bytes from block `start` on, zero-padded to whole blocks,
     * and is otherwise what it was.
     */
    method RxRun(events: seq<Event>) returns (out: seq<Reply>)
      requires Valid() && State() == INITIAL
      modifies this`phase, this`expected, this`retries, this`total, this`staged, this`ysize, this`reported
      modifies client.staging, client.disk.va, client.disk.mem
      ensures Valid() && (State(), out) == Run(store, events)
      ensures phase.Finished? ==>
                client.Valid() && start * Ramdisk.BLOCK_SIZE + |Padded(staged)| <= Ramdisk.DISK_BYTES
                && client.disk.Flat() == DiskAfter(disk0, start, staged)
    {
      out := [ChrC];
      for i := 0 to |events|
        invariant Valid() && (State(), out) == Run(store, events[..i])
      {
        assert events[..i + 1][..i] == events[..i];
        var more := Handle(events[i]);
        out := out + more;
      }
      assert events[..|events|] == events;
    }

    /** After a finished session a dump of the range succeeds and prints exactly the received bytes. */
    method DumpReceived(show: Byte -> seq<Byte>, ghost events: seq<Event>) returns (ok: bool, out: seq<Byte>)
      requires Valid() && phase.Finished? && State() == Run(store, events).0
      modifies client.disk.va
      ensures client.Valid() && client.disk.Flat() == old(client.disk.Flat())
      ensures ok && out == Printed(show, staged)
    {
      RunStores(store, events);
      RoomIsReadable(store, client.disk.hasGrant, client.disk.Bases(), client.ipcUp, total);
      DiskHolds(disk0, start * Ramdisk.BLOCK_SIZE, Padded(staged), staged);
      assert Range(client.disk.Flat(), start, total) == staged;
      ok, out := client.Dump(start, total, show);
    }
  }

  /** What the host hears of a text from byte `i` on, with a carriage return before every line feed. */
  function HeardFrom(text: seq<Byte>, i: nat): seq<Reply>
    requires i <= |text|
  {
    Receiver.Heard(P.Sent(text[i..]))
  }

  function HeardOf(b: Byte): seq<Reply> {
    if b == P.LF then [Spoken(P.CR), Spoken(P.LF)] else [Spoken(b)]
  }

  lemma HeardStep(text: seq<Byte>, i: nat)
    requires i < |text|
    ensures HeardFrom(text, i) == HeardOf(text[i]) + HeardFrom(text, i + 1)
  {
    assert text[i..][1..] == text[i + 1..];
  }

  /** Text as the serial driver sends it and the host hears it. */
  method SendText(text: seq<Byte>) returns (out: seq<Reply>)
    ensures out == Receiver.Heard(P.Sent(text))
  {
    out := [];
    assert text[0..] == text;
    for i := 0 to |text|
      invariant out + HeardFrom(text, i) == Receiver.Heard(P.Sent(text))
    {
      HeardStep(text, i);
      var more := SendByte(text[i]);
      Joined(out, more, HeardFrom(text, i + 1), HeardFrom(text, i));
      out := out + more;
    }
    assert HeardFrom(text, |text|) == [];
  }

  lemma Joined<T>(a: seq<T>, b: seq<T>, c: seq<T>, d: seq<T>)
    requires d == b + c
    ensures (a + b) + c == a + d
  {
  }

  /** The progress counter is always the number of multiples passed. */
  lemma ReportedMoves(before: nat, after: nat)
    requires before <= after
    ensures before / P.EVERY <= after / P.EVERY
  {
  }

  method SendByte(b: Byte) returns (out: seq<Reply>)
    ensures out == HeardOf(b)
  {
    out := [];
    if b == P.LF { out := out + [Spoken(P.CR)]; }
    out := out + [Spoken(b)];
  }

  /** Every block of a range with room can be read back. */
  lemma RoomIsReadable(store: Store, granted: bool, bases: seq<int>, ipcUp: (nat, nat) -> bool, n: nat)
    requires |bases| == Ramdisk.SEGMENTS && DescribesFor(store, granted, bases, ipcUp) && Room(store, n)
    ensures Readable(granted, bases, ipcUp, store.start, n)
  {
    forall b: nat | store.start <= b && (b - store.start) * Ramdisk.BLOCK_SIZE < n
      ensures WritableFor(granted, bases, ipcUp, b)
    {
      var k: nat := (b - store.start) * Ramdisk.BLOCK_SIZE;
      assert BlockIndex(store, k) == b;
    }
  }

  /** A whole session on a client: what a finished one leaves on the disk, and how many bytes it reports. */
  method Receive(client: Client, start: nat, ghost store: Store, events: seq<Event>) returns (total: nat)
    requires client.Valid() && client.Describes(store) && store.start == start
    modifies client.staging, client.disk.va, client.disk.mem
    ensures var rx := Run(store, events).0;
            rx.phase.Finished? ==>
              && client.Valid() && total == |rx.staged|
              && start * Ramdisk.BLOCK_SIZE + |Padded(rx.staged)| <= Ramdisk.DISK_BYTES
              && client.disk.Flat() == DiskAfter(old(client.disk.Flat()), start, rx.staged)
  {
    var session := new Session(client, start, store);
    var _ := session.RxRun(events);
    total := session.total;
  }

  /**
   * A session followed by a dump of what it received: when the session finishes, the dump succeeds and prints
   * exactly the staged bytes.
   */
  method ReceiveThenDump(client: Client, start: nat, ghost store: Store, events: seq<Event>, show: Byte -> seq<Byte>)
    returns (finished: bool, ok: bool, out: seq<Byte>)
    requires client.Valid() && client.Describes(store) && store.start == start
    modifies client.staging, client.disk.va, client.disk.mem
    ensures finished <==> Run(store, events).0.phase.Finished?
    ensures finished ==> ok && out == Printed(show, Run(store, events).0.staged)
  {
    var session := new Session(client, start, store);
    var _ := session.RxRun(events);
    finished, ok, out := session.phase.Finished?, false, [];
    if finished {
      ok, out := session.DumpReceived(show, events);
    }
  }
}
