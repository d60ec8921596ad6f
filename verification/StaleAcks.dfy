/**
 * The bound on stale ACKs is exact: with 256 of them in effect there is a run without any noise, only slow
 * answers and lost packets, in which the receiver takes packet 513 for packet 257.
 */
module StaleAcks {
  import opened Bytes
  import Block0
  import opened Receiver
  import opened Sender
  import opened Transfer
  import opened TransferTheorems
  import B = RunBuilder

  const ROUNDS := 256
  const STORE := Store(0, (block: nat) => true)

  function Acks(n: nat): (r: seq<Reply>)
    ensures |r| == n && forall i :: 0 <= i < n ==> r[i] == Ack
  {
    seq(n, _ => Ack)
  }

  function Upto(n: nat): (r: seq<nat>)
    ensures |r| == n && Consecutive(r)
  {
    seq(n, i requires 0 <= i < n => i + 1)
  }

  /** A file of at least 513 data packets. */
  ghost predicate LongJob(job: Upload) {
    Announced(job) && 513 < job.PacketCount()
  }

  /** The receiver when it expects packet `e`. */
  function Expecting(job: Upload, e: nat): Rx
    requires 1 <= e < job.PacketCount()
  {
    Rx(Packets, e, Stream(job, e - 1), Some(|job.blob|), 0)
  }

  /** Packet `m` was just sent for the first time; the receiver has taken `e - 1` packets. */
  function Ahead(job: Upload, m: nat, e: nat, acks: nat, stale: nat): State
    requires 1 <= e < job.PacketCount()
  {
    State(Waiting(m, 1, 1), Expecting(job, e), [Pkt(m)], Acks(acks), Upto(e - 1), stale, 0)
  }

  predicate Quietly(labels: seq<Label>) {
    forall i :: 0 <= i < |labels| ==> !labels[i].NoiseForward? && !labels[i].NoiseBack?
  }

  lemma {:induction false} StageAllWhole(staged: seq<Byte>, body: seq<Byte>, limit: nat)
    requires |staged| + |body| <= limit && |staged| + |body| <= 0x10_0000
    ensures StageAll(STORE, staged, body, Some(limit)) == (staged + body, true)
    decreases |body|
  {
    if body == [] {
      assert staged + body == staged;
    } else {
      StageAllWhole(staged + [body[0]], body[1..], limit);
      assert staged + [body[0]] + body[1..] == staged + body;
    }
  }

  lemma StreamFits(job: Upload, k: nat)
    requires k + 2 < job.PacketCount()
    ensures |Stream(job, k)| == k * job.packetLen
    ensures k * job.packetLen + job.packetLen < |job.blob|
    ensures k <= 512 ==> k * job.packetLen + job.packetLen <= 0x10_0000
  {
    StreamIsFile(job, k);
    CeilBounds(|job.blob|, job.packetLen);
    MulMonotone(k + 1, job.PacketCount() - 2, job.packetLen);
    if k <= 512 { MulMonotone(k, 512, job.packetLen); }
    assert (job.PacketCount() - 1) * job.packetLen == (job.PacketCount() - 2) * job.packetLen + job.packetLen;
    assert (k + 1) * job.packetLen == k * job.packetLen + job.packetLen;
  }

  /** No noise on the line, and at most 256 stale ACKs in effect. */
  function Calm(): B.Allowed {
    (l: Label, s: State) => !l.NoiseForward? && !l.NoiseBack? && StaleBelow(s, STALE_LIMIT + 1)
  }

  ghost predicate Closed(job: Upload, R: State -> bool) {
    B.Closed(job, STORE, Calm(), R)
  }

  /** A further step without noise, as long as the stale ACKs in effect stay within the limit. */
  lemma Extend(job: Upload, R: State -> bool, s: State, l: Label, s': State)
    requires Closed(job, R) && R(s) && !l.NoiseForward? && !l.NoiseBack? && Apply(job, STORE, s, l) == s'
    requires s'.staleAcks <= STALE_LIMIT
    ensures R(s')
  {
    B.Extend(job, STORE, Calm(), R, s, l, s');
  }

  lemma HearFirstItem(job: Upload, ev: Event, rx: Rx)
    requires Arrival(job, Pkt(0)) == ev && Step(STORE, INITIAL, ev) == (rx, [Ack])
    requires rx.expected == 1 && rx.staged == [] && rx.ysize.Some?
    ensures Apply(job, STORE, Start(), ReceiverHears) == State(Waiting(0, 1, 0), rx, [], [ChrC, Ack], [], 0, 0)
  {
    assert Start().fwd == [Pkt(0)] + [];
    assert [ChrC] + [Ack] == [ChrC, Ack];
    HearsFirst(job, STORE, Start(), Pkt(0), [], ev, rx, [Ack]);
  }

  lemma HearHeader(job: Upload)
    requires Announced(job)
    ensures Apply(job, STORE, Start(), ReceiverHears)
              == State(Waiting(0, 1, 0), Rx(Packets, 1, [], Some(|job.blob|), 0), [], [ChrC, Ack], [], 0, 0)
  {
    HeaderArrives(job, STORE);
    HearFirstItem(job, Arrival(job, Pkt(0)), Rx(Packets, 1, [], Some(|job.blob|), 0));
  }

  /** The header is taken, and its ACK is on the way behind the handshake byte. */
  lemma HeaderTaken(job: Upload, R: State -> bool)
    requires Announced(job) && Closed(job, R) && R(Start())
    ensures R(State(Waiting(0, 1, 0), Rx(Packets, 1, [], Some(|job.blob|), 0), [], [ChrC, Ack], [], 0, 0))
  {
    HearHeader(job);
    Extend(job, R, Start(), ReceiverHears,
           State(Waiting(0, 1, 0), Rx(Packets, 1, [], Some(|job.blob|), 0), [], [ChrC, Ack], [], 0, 0));
  }

  lemma HearGreeting(job: Upload, rx: Rx)
    ensures Apply(job, STORE, State(Waiting(0, 1, 0), rx, [], [ChrC, Ack], [], 0, 0), HostHears)
              == State(Waiting(0, 1, 1), rx, [], Acks(1), Upto(0), 0, 0)
  {
    assert Acks(1) == [Ack] && Upto(0) == [];
  }

  lemma Opening(job: Upload, R: State -> bool)
    requires Announced(job) && 1 < job.PacketCount() && Closed(job, R) && R(Start())
    ensures R(Ahead(job, 1, 1, 0, 0))
  {
    var rx := Expecting(job, 1);
    var s1 := State(Waiting(0, 1, 0), rx, [], [ChrC, Ack], [], 0, 0);
    var s2 := State(Waiting(0, 1, 1), rx, [], Acks(1), Upto(0), 0, 0);
    HeaderTaken(job, R);
    HearGreeting(job, rx);
    Extend(job, R, s1, HostHears, s2);
    HearAck(job, 0, 1, rx, 0, Upto(0), 0);
    Extend(job, R, s2, HostHears, Ahead(job, 1, 1, 0, 0));
  }

  /** The line loses the progress text behind the ACKs. */
  lemma {:induction false} DropText(job: Upload, R: State -> bool, s: State, acks: nat, text: seq<Reply>)
    requires Closed(job, R) && R(s) && s.back == Acks(acks) + text && s.staleAcks <= STALE_LIMIT
    requires forall i :: 0 <= i < |text| ==> text[i].Text?
    ensures R(s.(back := Acks(acks)))
    decreases |text|
  {
    if text == [] {
      assert Acks(acks) + text == Acks(acks);
    } else {
      var s' := s.(back := Acks(acks) + text[1..]);
      DropOne(job, s, acks, text);
      Extend(job, R, s, DropBack(acks), s');
      DropText(job, R, s', acks, text[1..]);
    }
  }

  lemma DropOne(job: Upload, s: State, acks: nat, text: seq<Reply>)
    requires s.back == Acks(acks) + text && text != [] && text[0].Text?
    ensures Apply(job, STORE, s, DropBack(acks)) == s.(back := Acks(acks) + text[1..])
  {
    assert Without(s.back, acks) == Acks(acks) + text[1..];
  }

  lemma TakeExpected(e: nat, staged: seq<Byte>, body: seq<Byte>, limit: nat, seqNo: nat)
    requires e >= 1 && |staged| + |body| < limit && |staged| + |body| <= 0x10_0000 && seqNo == e % 256
    requires e > 1 || seqNo != 0
    ensures Step(STORE, Rx(Packets, e, staged, Some(limit), 0), Packet(seqNo, body))
              == (Rx(Packets, e + 1, staged + body, Some(limit), 0),
                  [Ack] + Report(|staged|, |staged + body|, Some(limit)))
  {
    StageAllWhole(staged, body, limit);
  }

  /** What the receiver holds after taking packet `i` for packet `e`. */
  function TookAs(job: Upload, e: nat, i: nat): Rx
    requires 1 <= e < job.PacketCount() && i < job.PacketCount()
  {
    Rx(Packets, e + 1, Stream(job, e - 1) + job.Body(i), Some(|job.blob|), 0)
  }

  /** Packet `i`, which carries the number the receiver expects, is taken. */
  lemma ExpectedArrives(job: Upload, e: nat, i: nat) returns (text: seq<Reply>)
    requires 1 <= e <= 513 && e + 1 < job.PacketCount() && e <= i < job.PacketCount() && i % 256 == e % 256
    ensures Step(STORE, Expecting(job, e), Arrival(job, Pkt(i))) == (TookAs(job, e, i), [Ack] + text)
    ensures forall k :: 0 <= k < |text| ==> text[k].Text?
  {
    var staged := Stream(job, e - 1);
    StreamFits(job, e - 1);
    ArrivalOf(job, i);
    TakeExpected(e, staged, job.Body(i), |job.blob|, i % 256);
    text := Report(|staged|, |staged + job.Body(i)|, Some(|job.blob|));
  }

  lemma ArrivalOf(job: Upload, i: nat)
    requires 1 <= i < job.PacketCount()
    ensures Arrival(job, Pkt(i)) == Packet(i % 256, job.Body(i)) && |job.Body(i)| == job.packetLen
  {
  }

  /** The receiver hears it next on the line. */
  lemma HearExpected(job: Upload, tx: Tx, rx: Rx, i: nat, fwd: seq<Item>, acks: nat, accepted: seq<nat>, stale: nat,
                     rx': Rx, text: seq<Reply>)
    requires Step(STORE, rx, Arrival(job, Pkt(i))) == (rx', [Ack] + text) && rx'.expected == rx.expected + 1
    ensures Apply(job, STORE, State(tx, rx, [Pkt(i)] + fwd, Acks(acks), accepted, stale, 0), ReceiverHears)
              == State(tx, rx', fwd, Acks(acks + 1) + text, accepted + [i], stale, 0)
  {
    assert Acks(acks) + ([Ack] + text) == Acks(acks + 1) + text;
    HearsFirst(job, STORE, State(tx, rx, [Pkt(i)] + fwd, Acks(acks), accepted, stale, 0), Pkt(i), fwd,
               Arrival(job, Pkt(i)), rx', [Ack] + text);
  }

  /** The same, with the progress text lost on the way back. */
  lemma Taken(job: Upload, R: State -> bool, e: nat, i: nat, tx: Tx, fwd: seq<Item>, acks: nat, stale: nat)
    requires Closed(job, R) && stale <= STALE_LIMIT
    requires 1 <= e <= 513 && e + 1 < job.PacketCount() && e <= i < job.PacketCount() && i % 256 == e % 256
    requires R(State(tx, Expecting(job, e), [Pkt(i)] + fwd, Acks(acks), Upto(e - 1), stale, 0))
    ensures R(State(tx, TookAs(job, e, i), fwd, Acks(acks + 1), Upto(e - 1) + [i], stale, 0))
  {
    var text := ExpectedArrives(job, e, i);
    HearExpected(job, tx, Expecting(job, e), i, fwd, acks, Upto(e - 1), stale, TookAs(job, e, i), text);
    var s := State(tx, TookAs(job, e, i), fwd, Acks(acks + 1) + text, Upto(e - 1) + [i], stale, 0);
    Extend(job, R, State(tx, Expecting(job, e), [Pkt(i)] + fwd, Acks(acks), Upto(e - 1), stale, 0), ReceiverHears, s);
    DropText(job, R, s, acks + 1, text);
  }

  lemma TakeRepeat(m: nat, staged: seq<Byte>, body: seq<Byte>, limit: nat)
    ensures var rx := Rx(Packets, m + 1, staged, Some(limit), 0);
            Step(STORE, rx, Packet(m % 256, body)) == (rx, [Ack])
  {
    assert (m + 1 + 255) % 256 == m % 256 != (m + 1) % 256;
  }

  lemma HearRepeat(job: Upload, m: nat, tx: Tx, acks: nat, stale: nat)
    requires 1 <= m && m + 1 < job.PacketCount()
    ensures var rx := Expecting(job, m + 1);
            Apply(job, STORE, State(tx, rx, [Pkt(m)], Acks(acks), Upto(m), stale, 0), ReceiverHears)
              == State(tx, rx, [], Acks(acks + 1), Upto(m), stale + 1, 0)
  {
    TakeRepeat(m, Stream(job, m), job.Body(m), |job.blob|);
    assert Acks(acks) + [Ack] == Acks(acks + 1);
    assert Arrival(job, Pkt(m)) == Packet(m % 256, job.Body(m));
  }

  lemma HearAck(job: Upload, m: nat, attempt: nat, rx: Rx, acks: nat, accepted: seq<nat>, stale: nat)
    requires m + 1 < job.PacketCount()
    ensures Apply(job, STORE, State(Waiting(m, attempt, 1), rx, [], Acks(acks + 1), accepted, stale, 0), HostHears)
              == State(Waiting(m + 1, 1, 1), rx, [Pkt(m + 1)], Acks(acks), accepted, stale, 0)
  {
    assert Acks(acks + 1)[1..] == Acks(acks);
  }

  lemma Impatience(job: Upload, m: nat, rx: Rx, acks: nat, accepted: seq<nat>, stale: nat)
    ensures Apply(job, STORE, State(Waiting(m, 1, 1), rx, [Pkt(m)], Acks(acks), accepted, stale, 0), HostQuiet)
              == State(Waiting(m, 2, 1), rx, [Pkt(m)] + [Pkt(m)], Acks(acks), accepted, stale, 0)
  {
  }

  /** The host grows impatient and sends packet `m` twice; the receiver stages the first copy. */
  lemma SentTwice(job: Upload, R: State -> bool, m: nat)
    requires LongJob(job) && Closed(job, R) && 1 <= m <= ROUNDS && R(Ahead(job, m, m, m - 1, m - 1))
    ensures R(State(Waiting(m, 2, 1), Expecting(job, m + 1), [Pkt(m)], Acks(m), Upto(m), m - 1, 0))
  {
    var tx := Waiting(m, 2, 1);
    var s := State(tx, Expecting(job, m), [Pkt(m)] + [Pkt(m)], Acks(m - 1), Upto(m - 1), m - 1, 0);
    Impatience(job, m, Expecting(job, m), m - 1, Upto(m - 1), m - 1);
    Extend(job, R, Ahead(job, m, m, m - 1, m - 1), HostQuiet, s);
    Taken(job, R, m, m, tx, [Pkt(m)], m - 1, m - 1);
    TookOwn(job, m);
  }

  lemma TookOwn(job: Upload, m: nat)
    requires 1 <= m && m + 1 < job.PacketCount()
    ensures TookAs(job, m, m) == Expecting(job, m + 1) && Upto(m - 1) + [m] == Upto(m)
  {
    assert Stream(job, m) == Stream(job, m - 1) + job.Body(m);
  }

  /** One round: the receiver acknowledges both copies and the host counts one of the ACKs. */
  lemma Round(job: Upload, R: State -> bool, m: nat)
    requires LongJob(job) && Closed(job, R) && 1 <= m <= ROUNDS && R(Ahead(job, m, m, m - 1, m - 1))
    ensures R(Ahead(job, m + 1, m + 1, m, m))
  {
    SentTwice(job, R, m);
    var tx, rx := Waiting(m, 2, 1), Expecting(job, m + 1);
    var s2 := State(tx, rx, [Pkt(m)], Acks(m), Upto(m), m - 1, 0);
    var s3 := State(tx, rx, [], Acks(m + 1), Upto(m), m, 0);
    HearRepeat(job, m, tx, m, m - 1);
    Extend(job, R, s2, ReceiverHears, s3);
    HearAck(job, m, 2, rx, m, Upto(m), m);
    Extend(job, R, s3, HostHears, Ahead(job, m + 1, m + 1, m, m));
  }

  lemma {:induction false} Rounds(job: Upload, R: State -> bool, m: nat)
    requires LongJob(job) && Closed(job, R) && R(Start()) && m <= ROUNDS
    ensures R(Ahead(job, m + 1, m + 1, m, m))
  {
    if m == 0 {
      Opening(job, R);
    } else {
      Rounds(job, R, m - 1);
      Round(job, R, m);
    }
  }

  /** The line loses the packet under way, and the host counts a stale ACK for it. */
  lemma LoseAndHear(job: Upload, R: State -> bool, m: nat, rx: Rx, acks: nat, accepted: seq<nat>, stale: nat)
    requires Closed(job, R) && m + 1 < job.PacketCount() && stale <= STALE_LIMIT
             && R(State(Waiting(m, 1, 1), rx, [Pkt(m)], Acks(acks + 1), accepted, stale, 0))
    ensures R(State(Waiting(m + 1, 1, 1), rx, [Pkt(m + 1)], Acks(acks), accepted, stale, 0))
  {
    var s := State(Waiting(m, 1, 1), rx, [Pkt(m)], Acks(acks + 1), accepted, stale, 0);
    Extend(job, R, s, DropForward(0), s.(fwd := []));
    HearAck(job, m, 1, rx, acks, accepted, stale);
    Extend(job, R, s.(fwd := []), HostHears,
        State(Waiting(m + 1, 1, 1), rx, [Pkt(m + 1)], Acks(acks), accepted, stale, 0));
  }

  lemma {:induction false} Losses(job: Upload, R: State -> bool, m: nat, j: nat, rx: Rx, acks: nat, accepted: seq<nat>,
      stale: nat)
    requires Closed(job, R) && m + j < job.PacketCount() && stale <= STALE_LIMIT
             && R(State(Waiting(m, 1, 1), rx, [Pkt(m)], Acks(acks + j), accepted, stale, 0))
    ensures R(State(Waiting(m + j, 1, 1), rx, [Pkt(m + j)], Acks(acks), accepted, stale, 0))
    decreases j
  {
    if j == 0 {
    } else {
      LoseAndHear(job, R, m, rx, acks + j - 1, accepted, stale);
      Losses(job, R, m + 1, j - 1, rx, acks, accepted, stale);
    }
  }

  lemma Overrun(job: Upload, R: State -> bool, e: nat) returns (s: State)
    requires LongJob(job) && Closed(job, R) && R(Start()) && e == ROUNDS + 1
    ensures R(s) && s.rx.staged == Stream(job, e - 1) + job.Body(513) && s.accepted == Upto(e - 1) + [513]
  {
    Rounds(job, R, e - 1);
    var rx := Expecting(job, e);
    Losses(job, R, e, ROUNDS, rx, 0, Upto(e - 1), ROUNDS);
    assert [Pkt(513)] + [] == [Pkt(513)];
    Taken(job, R, e, 513, Waiting(513, 1, 1), [], 0, ROUNDS);
    s := State(Waiting(513, 1, 1), TookAs(job, e, 513), [], Acks(1), Upto(e - 1) + [513], ROUNDS, 0);
  }

  /**
   * With 256 stale ACKs in effect the prefix property fails, on every long file and without any noise: packet
   * 513 is staged where packet 257 belongs.
   */
  lemma StaleAcksBreakThePrefix(job: Upload) returns (labels: seq<Label>)
    requires LongJob(job)
    ensures Quietly(labels) && StaleBelowAlong(job, STORE, labels, STALE_LIMIT + 1)
    ensures !Consecutive(TransferTheorems.Run(job, STORE, labels).accepted)
    ensures job.Body(257) != job.Body(513) ==>
              !(TransferTheorems.Run(job, STORE, labels).rx.staged <= PaddedFile(job))
  {
    var R := (s: State) =>
      exists labels :: B.Along(job, STORE, Calm(), labels) && TransferTheorems.Run(job, STORE, labels) == s;
    B.ReachedIsClosed(job, STORE, Calm(), R);
    var e: nat :| e == ROUNDS + 1;
    var s := Overrun(job, R, e);
    assert s.accepted[e - 1] == 513;
    if job.Body(257) != job.Body(513) { WrongPacket(job, e, s.rx.staged); }
    labels :| B.Along(job, STORE, Calm(), labels) && TransferTheorems.Run(job, STORE, labels) == s;
    CalmRun(job, labels);
  }

  lemma WrongPacket(job: Upload, e: nat, staged: seq<Byte>)
    requires LongJob(job) && e == ROUNDS + 1 && staged == Stream(job, e - 1) + job.Body(513)
    requires job.Body(257) != job.Body(513)
    ensures !(staged <= PaddedFile(job))
  {
    StreamFits(job, e - 1);
    BodyIsSlice(job, 257);
    var from, to := (e - 1) * job.packetLen, e * job.packetLen;
    assert to == from + job.packetLen && |staged| == to;
    assert staged[from..to] == job.Body(513);
  }

  lemma CalmRun(job: Upload, labels: seq<Label>)
    requires B.Along(job, STORE, Calm(), labels)
    ensures Quietly(labels) && StaleBelowAlong(job, STORE, labels, STALE_LIMIT + 1)
  {
    forall k | 0 <= k <= |labels| ensures StaleBelow(TransferTheorems.Run(job, STORE, labels[..k]), STALE_LIMIT + 1) {
      if k == 0 {
        assert labels[..0] == [];
      } else {
        assert Calm()(labels[k - 1], TransferTheorems.Run(job, STORE, labels[..k]));
      }
    }
    forall i | 0 <= i < |labels| ensures !labels[i].NoiseForward? && !labels[i].NoiseBack? {
      assert Calm()(labels[i], TransferTheorems.Run(job, STORE, labels[..i + 1]));
    }
  }

  // ---- the exact limit ----

  /** Any step, noise included, as long as at most 256 stale ACKs are in effect. */
  function Noisy(): B.Allowed {
    (l: Label, s: State) => StaleBelow(s, STALE_LIMIT + 1)
  }

  lemma NoisyIsClosed(job: Upload, R: State -> bool)
    requires B.Closed(job, STORE, Noisy(), R)
    ensures Closed(job, R)
  {
    forall s: State, l: Label | R(s) && Calm()(l, Apply(job, STORE, s, l)) ensures R(Apply(job, STORE, s, l)) {
      B.Extend(job, STORE, Noisy(), R, s, l, Apply(job, STORE, s, l));
    }
  }

  /** Noise that reads as an ACK makes the host go on while the line loses its packet. */
  lemma FalseAck(job: Upload, R: State -> bool, m: nat, rx: Rx, accepted: seq<nat>, stale: nat)
    requires B.Closed(job, STORE, Noisy(), R) && m + 1 < job.PacketCount() && stale < STALE_LIMIT
    requires R(State(Waiting(m, 1, 1), rx, [Pkt(m)], [], accepted, stale, 0))
    ensures R(State(Waiting(m + 1, 1, 1), rx, [Pkt(m + 1)], [], accepted, stale + 1, 0))
  {
    NoisyIsClosed(job, R);
    var s := State(Waiting(m, 1, 1), rx, [Pkt(m)], [], accepted, stale, 0);
    var s' := State(Waiting(m, 1, 1), rx, [Pkt(m)], Acks(1), accepted, stale + 1, 0);
    assert Inserted(s.back, 0, Ack) == Acks(1);
    B.Extend(job, STORE, Noisy(), R, s, NoiseBack(0, Ack), s');
    LoseAndHear(job, R, m, rx, 0, accepted, stale + 1);
    assert Acks(0) == [];
  }

  lemma {:induction false} FalseAcks(job: Upload, R: State -> bool, m: nat, j: nat, rx: Rx, accepted: seq<nat>)
    requires B.Closed(job, STORE, Noisy(), R) && m + j < job.PacketCount() && j <= STALE_LIMIT
    requires R(State(Waiting(m, 1, 1), rx, [Pkt(m)], [], accepted, 0, 0))
    ensures R(State(Waiting(m + j, 1, 1), rx, [Pkt(m + j)], [], accepted, j, 0))
    decreases j
  {
    if j == 0 {
    } else {
      FalseAcks(job, R, m, j - 1, rx, accepted);
      FalseAck(job, R, m + j - 1, rx, accepted, j - 1);
    }
  }

  /** With 256 false ACKs packet 257 is taken for packet 1. */
  lemma TakenForFirst(job: Upload, R: State -> bool) returns (s: State)
    requires Announced(job) && 257 < job.PacketCount() && B.Closed(job, STORE, Noisy(), R) && R(Start())
    ensures R(s) && s.accepted == [257]
  {
    NoisyIsClosed(job, R);
    Opening(job, R);
    assert Acks(0) == [] && Upto(0) == [];
    var rx := Expecting(job, 1);
    FalseAcks(job, R, 1, STALE_LIMIT, rx, []);
    assert [Pkt(257)] + [] == [Pkt(257)] && Upto(0) + [257] == [257];
    Taken(job, R, 1, 257, Waiting(257, 1, 1), [], 0, STALE_LIMIT);
    s := State(Waiting(257, 1, 1), TookAs(job, 1, 257), [], Acks(1), [257], STALE_LIMIT, 0);
  }

  /** The line loses the header before the receiver hears anything. */
  lemma HeaderLost(job: Upload, R: State -> bool)
    requires B.Closed(job, STORE, Noisy(), R) && R(Start())
    ensures R(State(Waiting(0, 1, 1), INITIAL, [Pkt(0)], [], [], 0, 0))
  {
    var s := State(Waiting(0, 1, 1), INITIAL, [Pkt(0)], [], [], 0, 0);
    assert [ChrC][1..] == [] && [Pkt(0)] + [] == [Pkt(0)];
    B.Extend(job, STORE, Noisy(), R, Start(), HostHears, s);
  }

  /** With 256 false ACKs packet 256 is read as a header. */
  lemma TakenForHeader(job: Upload, R: State -> bool) returns (s: State)
    requires 256 < job.PacketCount() && !NoFalseHeader(job) && B.Closed(job, STORE, Noisy(), R) && R(Start())
    ensures R(s) && s.rx.ysize.Some? && s.rx.ysize.value != |job.blob|
  {
    HeaderLost(job, R);
    FalseAcks(job, R, 0, STALE_LIMIT, INITIAL, []);
    var s0 := State(Waiting(256, 1, 1), INITIAL, [Pkt(256)], [], [], STALE_LIMIT, 0);
    s := Apply(job, STORE, s0, ReceiverHears);
    assert Arrival(job, Pkt(256)) == Packet(0, job.Body(256));
    assert s.rx == INITIAL.(phase := Packets, ysize := Block0.ParseBlock0(job.Body(256)));
    assert s.back == [Ack] && s.staleAcks == STALE_LIMIT;
    B.Extend(job, STORE, Noisy(), R, s0, ReceiverHears, s);
  }

  lemma NoisyRun(job: Upload, labels: seq<Label>)
    requires B.Along(job, STORE, Noisy(), labels)
    ensures StaleBelowAlong(job, STORE, labels, STALE_LIMIT + 1)
  {
    forall k | 0 <= k <= |labels| ensures StaleBelow(TransferTheorems.Run(job, STORE, labels[..k]), STALE_LIMIT + 1) {
      if k == 0 {
        assert labels[..0] == [];
      } else {
        assert Noisy()(labels[k - 1], TransferTheorems.Run(job, STORE, labels[..k]));
      }
    }
  }

  /** The files for which no number of stale ACKs can break the prefix property. */
  predicate Short(job: Upload) {
    job.PacketCount() <= 256 || (job.PacketCount() == 257 && NoFalseHeader(job))
  }

  lemma LongFileBreaks(job: Upload) returns (labels: seq<Label>)
    requires Announced(job) && !Short(job)
    ensures StaleBelowAlong(job, STORE, labels, STALE_LIMIT + 1)
    ensures !PrefixHolds(job, TransferTheorems.Run(job, STORE, labels))
  {
    var R := (s: State) =>
      exists labels :: B.Along(job, STORE, Noisy(), labels) && TransferTheorems.Run(job, STORE, labels) == s;
    B.ReachedIsClosed(job, STORE, Noisy(), R);
    var s;
    if 257 < job.PacketCount() {
      s := TakenForFirst(job, R);
      assert s.accepted[0] == 257;
    } else {
      s := TakenForHeader(job, R);
    }
    labels :| B.Along(job, STORE, Noisy(), labels) && TransferTheorems.Run(job, STORE, labels) == s;
    NoisyRun(job, labels);
  }

  /** Every run that keeps its effective stale ACKs below `n` has the prefix property. */
  ghost predicate LimitSuffices(job: Upload, n: int) {
    forall store: Store, labels: seq<Label> ::
      StaleBelowAlong(job, store, labels, n) ==> PrefixHolds(job, TransferTheorems.Run(job, store, labels))
  }

  /**
   * The exact limit for every file that can be announced: the prefix property needs fewer than 256 effective
   * stale ACKs, unless the file has at most 256 data packets and the last of these does not read as a header
   * with a wrong size; then it needs no limit.
   */
  lemma StaleLimitExact(job: Upload, n: int)
    requires Announced(job)
    ensures LimitSuffices(job, n) <==> n <= STALE_LIMIT || Short(job)
  {
    if n <= STALE_LIMIT || Short(job) {
      forall store: Store, labels: seq<Label> | StaleBelowAlong(job, store, labels, n)
        ensures PrefixHolds(job, TransferTheorems.Run(job, store, labels))
      {
        if Short(job) {
          ShortFileKeepsPrefix(job, store, labels);
        } else {
          FewStaleAcksKeepPrefix(job, store, labels, n);
        }
      }
    } else {
      var labels := LongFileBreaks(job);
      assert StaleBelowAlong(job, STORE, labels, n);
    }
  }
}
