/** The XMODEM/YMODEM receive session (`rx_run`) as a step function over protocol events. */
module Receiver {
  import opened Bytes
  import opened Block0
  import P = Progress
  import Ramdisk

  const MAX_RETRIES := 10
  const C_TRIES := 10

  /**
   * What one read of the line gives the receiver. `BadStart` is a start byte that is none of
   * SOH, STX, EOT, CAN; `BadBody` a packet that times out or fails its complement or CRC check;
   * `Quiet` a read time-out; `CapReached` the expiry of the overall time limit.
   */
  datatype Event =
    | Packet(seqNo: nat, body: seq<Byte>)
    | Eot
    | Cancel
    | BadStart
    | BadBody
    | Quiet
    | CapReached

  /** What the receiver writes: control bytes, console text, and the final report line. */
  datatype Reply = Ack | Nak | Can | ChrC | Text(newline: bool) | DoneLine(total: nat)

  datatype Phase =
    | Handshake(tries: nat)
    | Packets
    | AwaitEot
    | Finished(total: nat)
    | Failed(code: int)

  datatype Rx = Rx(phase: Phase, expected: nat, staged: seq<Byte>, ysize: Option<nat>, retries: nat)

  /** Where the transfer goes, and which block writes the ramdisk server accepts. */
  datatype Store = Store(start: nat, writable: nat -> bool)

  const INITIAL := Rx(Handshake(0), 1, [], None, 0)

  /** One byte into the staging block; `false` is a range error or a refused block write. */
  function StageByte(store: Store, staged: seq<Byte>, b: Byte): (r: (seq<Byte>, bool))
  {
    var blk := store.start + |staged| / Ramdisk.BLOCK_SIZE;
    if blk >= Ramdisk.BLOCKS then (staged, false)
    else
      var staged' := staged + [b];
      (staged', |staged'| % Ramdisk.BLOCK_SIZE == 0 ==> store.writable(blk))
  }

  /** A packet body, byte by byte, until the declared size is reached or a write fails. */
  function StageAll(store: Store, staged: seq<Byte>, body: seq<Byte>, limit: Option<nat>): (r: (seq<Byte>, bool))
    decreases |body|
  {
    if body == [] || (limit.Some? && |staged| >= limit.value) then (staged, true)
    else
      var (staged', ok) := StageByte(store, staged, body[0]);
      if ok then StageAll(store, staged', body[1..], limit) else (staged', false)
  }

  function Abort(rx: Rx): (Rx, seq<Reply>) {
    (rx.(phase := Failed(-3)), [Can, Can])
  }

  /** A NAK for a bad packet; the eleventh in a row aborts the session after the NAK. */
  function RejectPacket(rx: Rx): (Rx, seq<Reply>) {
    var rx' := rx.(retries := rx.retries + 1);
    if rx'.retries > MAX_RETRIES then (Abort(rx').0, [Nak, Can, Can]) else (rx', [Nak])
  }

  /** A NAK for silence or a stray byte; the eleventh in a row aborts instead of the NAK. */
  function RejectByte(rx: Rx): (Rx, seq<Reply>) {
    var rx' := rx.(retries := rx.retries + 1);
    if rx'.retries > MAX_RETRIES then Abort(rx') else (rx', [Nak])
  }

  /** Leaving the packet loop: flush the partial block and report the byte count. */
  function Finish(store: Store, rx: Rx, replies: seq<Reply>): (Rx, seq<Reply>) {
    var total := |rx.staged|;
    if total % Ramdisk.BLOCK_SIZE == 0 || store.writable(store.start + total / Ramdisk.BLOCK_SIZE)
    then (rx.(phase := Finished(total)), replies + [DoneLine(total)])
    else (rx.(phase := Failed(-9)), replies)
  }

  /** What the host makes of a byte that is not part of the final report. */
  function Spoken(b: Byte): (r: Reply)
    ensures !P.IsControl(b) ==> r.Text?
  {
    if b == P.ACK then Ack else if b == P.NAK then Nak else if b == P.CAN then Can else if b == P.CHR_C then ChrC
    else Text(b == P.LF)
  }

  function Heard(text: seq<Byte>): (r: seq<Reply>)
    ensures |r| == |text| && (P.Plain(text) ==> forall i :: 0 <= i < |r| ==> r[i].Text?)
  {
    seq(|text|, i requires 0 <= i < |text| => Spoken(text[i]))
  }

  function SizeOrZero(ysize: Option<nat>): nat {
    if ysize.Some? then ysize.value else 0
  }

  /** A progress line, byte by byte; the host takes all of it for text. */
  function ProgressLine(n: nat, size: nat): (r: seq<Reply>)
    ensures |r| == P.LineLength(n, size) && forall i :: 0 <= i < |r| ==> r[i].Text?
  {
    P.LineIs(n, size);
    Heard(P.Sent(P.Written(n, size)))
  }

  /** The progress text after a packet that took the byte count from `before` to `after`. */
  function Report(before: nat, after: nat, ysize: Option<nat>): (r: seq<Reply>)
    ensures forall i :: 0 <= i < |r| ==> r[i].Text?
  {
    if after / P.EVERY > before / P.EVERY then ProgressLine(after, SizeOrZero(ysize)) else []
  }

  /** A packet is acknowledged first; the progress text follows, unless it was the last packet. */
  function AcceptData(store: Store, rx: Rx, body: seq<Byte>): (Rx, seq<Reply>) {
    var (staged', ok) := StageAll(store, rx.staged, body, rx.ysize);
    var rx' := rx.(staged := staged');
    if !ok then Abort(rx')
    else if rx.ysize.Some? && |staged'| >= rx.ysize.value
    then (rx'.(phase := AwaitEot, expected := rx.expected + 1), [Ack])
    else (rx'.(expected := rx.expected + 1, retries := 0), [Ack] + Report(|rx.staged|, |staged'|, rx.ysize))
  }

  function OnPacket(store: Store, rx: Rx, seqNo: nat, body: seq<Byte>): (Rx, seq<Reply>) {
    if seqNo == 0 && rx.expected == 1 && rx.ysize.None? then
      match ParseBlock0(body)
      case None => RejectPacket(rx)
      case Some(n) => (rx.(ysize := Some(n)), [Ack])
    else if seqNo == rx.expected % 256 then AcceptData(store, rx, body)
    else if seqNo == (rx.expected + 255) % 256 then (rx, [Ack])
    else Abort(rx)
  }

  function Step(store: Store, rx: Rx, ev: Event): (Rx, seq<Reply>) {
    match rx.phase
    case Handshake(tries) =>
      (match ev
       case Packet(seqNo, body) => OnPacket(store, rx.(phase := Packets), seqNo, body)
       case BadBody => RejectPacket(rx.(phase := Packets))
       case Cancel => (rx.(phase := Failed(-2)), [])
       case _ =>
         if tries + 1 < C_TRIES then (rx.(phase := Handshake(tries + 1)), [ChrC])
         else (rx.(phase := Failed(-2)), []))
    case Packets =>
      (match ev
       case Packet(seqNo, body) => OnPacket(store, rx, seqNo, body)
       case BadBody => RejectPacket(rx)
       case Cancel => (rx.(phase := Failed(-2)), [])
       case Eot => Finish(store, rx, [Ack])
       case CapReached => Abort(rx)
       case _ => RejectByte(rx))
    case AwaitEot => Finish(store, rx, if ev == Eot then [Ack] else [])
    case _ => (rx, [])
  }

  /** A whole session: the state and everything written after a sequence of events. */
  function Run(store: Store, events: seq<Event>): (Rx, seq<Reply>) {
    if events == [] then (INITIAL, [ChrC])
    else
      var n := |events| - 1;
      var (rx, out) := Run(store, events[..n]);
      var (rx', more) := Step(store, rx, events[n]);
      (rx', out + more)
  }

  // ---- what staging keeps ----

  /**
   * Staging appends a prefix of the body and nothing else; when no write fails the prefix is the
   * whole body, cut at the declared size.
   */
  lemma {:induction false} StageAllAppends(store: Store, staged: seq<Byte>, body: seq<Byte>, limit: Option<nat>)
    ensures var r := StageAll(store, staged, body, limit);
            && |staged| <= |r.0| <= |staged| + |body|
            && r.0 == staged + body[..|r.0| - |staged|]
            && (r.1 ==> |r.0| == |staged| + |body| || (limit.Some? && |r.0| >= limit.value))
            && (limit.Some? && |staged| <= limit.value ==> |r.0| <= limit.value)
    decreases |body|
  {
    if body == [] || (limit.Some? && |staged| >= limit.value) {
      assert staged + body[..0] == staged;
    } else {
      var (staged', ok) := StageByte(store, staged, body[0]);
      if ok {
        StageAllAppends(store, staged', body[1..], limit);
        var r := StageAll(store, staged', body[1..], limit);
        var m := |r.0| - |staged'|;
        assert [body[0]] + body[1..][..m] == body[..m + 1];
      } else {
        assert staged + body[..1] == staged + [body[0]];
      }
    }
  }

  predicate Live(p: Phase) {
    p.Handshake? || p.Packets?
  }

  /** Whether an event changed what is staged or which packet is expected next. */
  predicate Took(rx: Rx, rx': Rx) {
    rx'.staged != rx.staged || rx'.expected != rx.expected
  }

  /**
   * What a packet may do: it changes the staged bytes only when the session is live and it carries
   * the expected number. Then the session goes on with the whole body appended, or it leaves the
   * packet loop with a prefix of the body appended.
   */
  predicate PacketChange(rx: Rx, rx': Rx, seqNo: nat, body: seq<Byte>) {
    && (Took(rx, rx') ==>
          Live(rx.phase) && seqNo == rx.expected % 256 && |rx.staged| <= |rx'.staged| && rx'.staged <= rx.staged + body)
    && (Live(rx'.phase) ==> Live(rx.phase))
    && (Live(rx'.phase) && Took(rx, rx') ==>
          rx'.expected == rx.expected + 1 && rx'.staged == rx.staged + body)
  }

  /** Only block 0 at the very start declares a size, and the staged bytes never pass it. */
  predicate SizeChange(rx: Rx, rx': Rx, seqNo: nat, declared: Option<nat>) {
    && (rx'.ysize != rx.ysize ==>
          Live(rx.phase) && rx.ysize.None? && seqNo == 0 && rx.expected == 1 && rx'.ysize == declared && !Took(rx, rx'))
    && (rx.ysize.Some? && |rx.staged| <= rx.ysize.value ==> |rx'.staged| <= rx.ysize.value)
  }

  /** An event other than a packet leaves the staged bytes and the expected number alone. */
  lemma OtherEffect(store: Store, rx: Rx, ev: Event)
    requires !ev.Packet?
    ensures var rx' := Step(store, rx, ev).0;
            !Took(rx, rx') && rx'.ysize == rx.ysize && (Live(rx'.phase) ==> Live(rx.phase))
  {
  }

  lemma AcceptEffect(store: Store, rx: Rx, body: seq<Byte>)
    requires rx.phase.Packets?
    ensures var rx' := AcceptData(store, rx, body).0;
            && |rx.staged| <= |rx'.staged| && rx'.staged <= rx.staged + body && rx'.ysize == rx.ysize
            && (Live(rx'.phase) ==> rx'.expected == rx.expected + 1 && rx'.staged == rx.staged + body)
            && (rx.ysize.Some? && |rx.staged| <= rx.ysize.value ==> |rx'.staged| <= rx.ysize.value)
  {
    StageAllAppends(store, rx.staged, body, rx.ysize);
    var r := StageAll(store, rx.staged, body, rx.ysize);
    assert |r.0| == |rx.staged| + |body| ==> body[..|r.0| - |rx.staged|] == body;
  }

  lemma OnPacketEffect(store: Store, rx: Rx, seqNo: nat, body: seq<Byte>)
    requires rx.phase.Packets?
    ensures PacketChange(rx, OnPacket(store, rx, seqNo, body).0, seqNo, body)
    ensures SizeChange(rx, OnPacket(store, rx, seqNo, body).0, seqNo, ParseBlock0(body))
  {
    AcceptEffect(store, rx, body);
  }

  lemma PacketEffect(store: Store, rx: Rx, seqNo: nat, body: seq<Byte>)
    ensures PacketChange(rx, Step(store, rx, Packet(seqNo, body)).0, seqNo, body)
    ensures SizeChange(rx, Step(store, rx, Packet(seqNo, body)).0, seqNo, ParseBlock0(body))
  {
    if Live(rx.phase) { OnPacketEffect(store, rx.(phase := Packets), seqNo, body); }
  }

  /** The final report is only written by a session that finishes, and tells its byte count. */
  ghost predicate TrueReports(rx: Rx, rx': Rx, out: seq<Reply>) {
    && (forall i :: 0 <= i < |out| && out[i].DoneLine? ==> rx'.phase == Finished(out[i].total))
    && (rx'.phase.Finished? ==> rx'.phase == rx.phase || rx'.phase.total == |rx'.staged|)
    && (rx.phase.Finished? ==> rx' == rx)
  }

  lemma PacketReports(store: Store, rx: Rx, seqNo: nat, body: seq<Byte>)
    requires rx.phase.Packets?
    ensures var (rx', out) := OnPacket(store, rx, seqNo, body);
            !rx'.phase.Finished? && forall i :: 0 <= i < |out| ==> !out[i].DoneLine?
  {
  }

  lemma ReportsAreTrue(store: Store, rx: Rx, ev: Event)
    ensures TrueReports(rx, Step(store, rx, ev).0, Step(store, rx, ev).1)
  {
    if ev.Packet? { PacketReports(store, rx.(phase := Packets), ev.seqNo, ev.body); }
  }

  // ---- what each event does ----

  /** A time-out, a stray byte, a packet that fails its checks, or a first block 0 without a readable size. */
  predicate IsRejected(rx: Rx, ev: Event) {
    || ev == Quiet || ev == BadStart || ev == BadBody
    || (ev.Packet? && ev.seqNo == 0 && rx.expected == 1 && rx.ysize.None? && ParseBlock0(ev.body).None?)
  }

  /**
   * In the packet loop the first ten rejections in a row each draw one NAK and change nothing but their count. The
   * eleventh ends the session with -3: two CANs, after a NAK if it was a packet.
   */
  lemma RejectionLaw(store: Store, rx: Rx, ev: Event)
    requires rx.phase.Packets? && IsRejected(rx, ev)
    ensures var (rx', out) := Step(store, rx, ev);
            && (rx.retries < 10 ==> rx' == rx.(retries := rx.retries + 1) && out == [Nak])
            && (rx.retries >= 10 ==>
                  && rx' == rx.(retries := rx.retries + 1, phase := Failed(-3))
                  && out == if ev == Quiet || ev == BadStart then [Can, Can] else [Nak, Can, Can])
  {
  }

  /** A packet with the expected number whose bytes are all staged starts the count of rejections anew. */
  lemma AcceptanceLaw(store: Store, rx: Rx, seqNo: nat, body: seq<Byte>)
    requires rx.phase.Packets? && seqNo == rx.expected % 256 && !(seqNo == 0 && rx.expected == 1)
    requires StageAll(store, rx.staged, body, rx.ysize).1
    ensures var (rx', out) := Step(store, rx, Packet(seqNo, body));
            && rx'.expected == rx.expected + 1 && rx'.ysize == rx.ysize && out != [] && out[0] == Ack
            && (if rx.ysize.Some? && |rx'.staged| >= rx.ysize.value then rx'.phase == AwaitEot && out == [Ack]
                else rx'.phase == Packets && rx'.retries == 0 && forall i :: 1 <= i < |out| ==> out[i].Text?)
  {
  }

  /** The other ways out of the packet loop. */
  lemma LeavingLaw(store: Store, rx: Rx)
    requires rx.phase.Packets?
    ensures Step(store, rx, Cancel) == (rx.(phase := Failed(-2)), [])
    ensures Step(store, rx, CapReached) == (rx.(phase := Failed(-3)), [Can, Can])
    ensures forall seqNo: nat, body ::
              && seqNo != rx.expected % 256 && seqNo != (rx.expected + 255) % 256
              && !(seqNo == 0 && rx.expected == 1 && rx.ysize.None?) ==>
                Step(store, rx, Packet(seqNo, body)) == (rx.(phase := Failed(-3)), [Can, Can])
    ensures forall seqNo: nat, body ::
              seqNo == rx.expected % 256 && !(seqNo == 0 && rx.expected == 1 && rx.ysize.None?)
              && !StageAll(store, rx.staged, body, rx.ysize).1 ==>
                var (rx', out) := Step(store, rx, Packet(seqNo, body));
                rx'.phase == Failed(-3) && rx'.expected == rx.expected && out == [Can, Can]
  {
  }

  /** The EOT is acknowledged; behind the last packet anything ends the session, and only an EOT is acknowledged. */
  lemma EotLaw(store: Store, rx: Rx, ev: Event)
    requires (rx.phase.Packets? && ev == Eot) || rx.phase.AwaitEot?
    ensures var (rx', out) := Step(store, rx, ev);
            var total := |rx.staged|;
            var flushed := total % 512 == 0 || store.writable(store.start + total / 512);
            && rx' == rx.(phase := if flushed then Finished(total) else Failed(-9))
            && out == (if ev == Eot then [Ack] else []) + (if flushed then [DoneLine(total)] else [])
  {
  }

  /** Before the first packet the receiver asks up to ten times; a packet, good or bad, is handled as in the loop. */
  lemma HandshakeLaw(store: Store, rx: Rx, ev: Event)
    requires rx.phase.Handshake?
    ensures var (rx', out) := Step(store, rx, ev);
            && (ev.Packet? || ev == BadBody ==> (rx', out) == Step(store, rx.(phase := Packets), ev))
            && (ev == Cancel ==> rx' == rx.(phase := Failed(-2)) && out == [])
            && (ev == Quiet || ev == BadStart || ev == Eot ==>
                  if rx.phase.tries < 9 then rx' == rx.(phase := Handshake(rx.phase.tries + 1)) && out == [ChrC]
                  else rx' == rx.(phase := Failed(-2)) && out == [])
  {
  }

  /** A session that is over hears nothing more. */
  lemma OverLaw(store: Store, rx: Rx, ev: Event)
    requires rx.phase.Finished? || rx.phase.Failed?
    ensures Step(store, rx, ev) == (rx, [])
  {
  }

  /** A receiver that hears nothing asks ten times in all and gives up with code -2. */
  lemma {:induction false} AsksTenTimes(store: Store, k: nat)
    ensures var (rx, out) := Run(store, seq(k, _ => Quiet));
            && rx == Rx(if k < 10 then Handshake(k) else Failed(-2), 1, [], None, 0)
            && out == seq(if k < 10 then k + 1 else 10, _ => ChrC)
    decreases k
  {
    if k == 0 {
    } else {
      AsksTenTimes(store, k - 1);
      assert (seq(k, _ => Quiet))[..k - 1] == seq(k - 1, _ => Quiet);
    }
  }

  /** What the host makes of each byte. */
  lemma SpokenLaw(b: Byte)
    ensures (Spoken(b) == Ack <==> b == 0x06) && (Spoken(b) == Nak <==> b == 0x15)
    ensures (Spoken(b) == Can <==> b == 0x18) && (Spoken(b) == ChrC <==> b == 0x43)
    ensures Spoken(b).Text? <==> b !in {0x06, 0x15, 0x18, 0x43}
    ensures Spoken(b) == Text(true) <==> b == 0x0A
  {
  }

  /** A progress line follows a packet exactly when it completes another 8 KiB; an unknown size reads as 0. */
  lemma ReportLaw(before: nat, after: nat, ysize: Option<nat>)
    requires before <= after
    ensures Report(before, after, ysize) != [] <==> exists k: nat :: Completes(before, after, k)
    ensures Report(before, after, ysize) != [] ==>
              Report(before, after, ysize) == ProgressLine(after, match ysize case Some(n) => n case None => 0)
  {
    assert Report(before, after, ysize) != [] <==> after / 8192 > before / 8192;
    if after / 8192 > before / 8192 {
      assert Completes(before, after, after / 8192);
    }
    forall k: nat | Completes(before, after, k) ensures after / 8192 > before / 8192 {
      assert before / 8192 < k;
      assert after / 8192 >= k;
    }
  }

  predicate Completes(before: nat, after: nat, k: nat) {
    before < 8192 * k <= after
  }

  // ---- a finished session has written every block ----

  function BlockIndex(store: Store, k: nat): nat {
    store.start + k / Ramdisk.BLOCK_SIZE
  }

  /** Every block that the first `n` bytes touch exists and can be written. */
  ghost predicate Room(store: Store, n: nat) {
    forall k: nat :: k < n ==> BlockIndex(store, k) < Ramdisk.BLOCKS && store.writable(BlockIndex(store, k))
  }

  /** The blocks touched exist, and the full ones among them were written. */
  ghost predicate Stored(store: Store, n: nat) {
    forall k: nat :: k < n ==>
      && BlockIndex(store, k) < Ramdisk.BLOCKS
      && ((k / Ramdisk.BLOCK_SIZE + 1) * Ramdisk.BLOCK_SIZE <= n ==> store.writable(BlockIndex(store, k)))
  }

  lemma StageByteStores(store: Store, staged: seq<Byte>, b: Byte)
    requires Stored(store, |staged|)
    ensures var (staged', ok) := StageByte(store, staged, b); ok ==> Stored(store, |staged'|)
  {
    var n := |staged|;
    var (staged', ok) := StageByte(store, staged, b);
    if ok {
      forall k: nat | k < n + 1
        ensures BlockIndex(store, k) < Ramdisk.BLOCKS
        ensures (k / Ramdisk.BLOCK_SIZE + 1) * Ramdisk.BLOCK_SIZE <= n + 1 ==> store.writable(BlockIndex(store, k))
      {
        if (k / Ramdisk.BLOCK_SIZE + 1) * Ramdisk.BLOCK_SIZE == n + 1 {
          assert k / Ramdisk.BLOCK_SIZE == n / Ramdisk.BLOCK_SIZE;
        }
      }
    }
  }

  lemma {:induction false} StageAllStores(store: Store, staged: seq<Byte>, body: seq<Byte>, limit: Option<nat>)
    requires Stored(store, |staged|)
    ensures var r := StageAll(store, staged, body, limit); r.1 ==> Stored(store, |r.0|)
    decreases |body|
  {
    if body == [] || (limit.Some? && |staged| >= limit.value) {
      // nothing is staged
    } else {
      StageByteStores(store, staged, body[0]);
      var (staged', ok) := StageByte(store, staged, body[0]);
      if ok { StageAllStores(store, staged', body[1..], limit); }
    }
  }

  ghost predicate StoreInv(store: Store, rx: Rx) {
    && (Live(rx.phase) || rx.phase.AwaitEot? ==> Stored(store, |rx.staged|))
    && (rx.phase.Finished? ==> rx.phase.total == |rx.staged| && Room(store, |rx.staged|))
  }

  lemma FinishStores(store: Store, rx: Rx, replies: seq<Reply>)
    requires Stored(store, |rx.staged|)
    ensures StoreInv(store, Finish(store, rx, replies).0)
  {
    var n := |rx.staged|;
    if Finish(store, rx, replies).0.phase.Finished? {
      forall k: nat | k < n ensures BlockIndex(store, k) < Ramdisk.BLOCKS && store.writable(BlockIndex(store, k)) {
        if (k / Ramdisk.BLOCK_SIZE + 1) * Ramdisk.BLOCK_SIZE > n {
          assert k / Ramdisk.BLOCK_SIZE == n / Ramdisk.BLOCK_SIZE;
        }
      }
    }
  }

  lemma StepStores(store: Store, rx: Rx, ev: Event)
    requires StoreInv(store, rx)
    ensures StoreInv(store, Step(store, rx, ev).0)
  {
    if Live(rx.phase) && ev.Packet? {
      StageAllStores(store, rx.staged, ev.body, rx.ysize);
    } else if Live(rx.phase) || rx.phase.AwaitEot? {
      FinishStores(store, rx, [Ack]);
      FinishStores(store, rx, []);
    }
  }

  /** A session that has finished has every block of its bytes on a writable disk. */
  lemma {:induction false} RunStores(store: Store, events: seq<Event>)
    ensures StoreInv(store, Run(store, events).0)
  {
    if events == [] {
      assert StoreInv(store, INITIAL);
    } else {
      var n := |events| - 1;
      RunStores(store, events[..n]);
      StepStores(store, Run(store, events[..n]).0, events[n]);
    }
  }
}
