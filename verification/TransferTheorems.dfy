/** What every run of the upload guarantees. */
module TransferTheorems {
  import opened Bytes
  import Block0
  import opened Receiver
  import opened Sender
  import opened Transfer

  /** The state after any sequence of steps from the start of the upload. */
  function Run(job: Upload, store: Store, labels: seq<Label>): State {
    if labels == [] then Start()
    else
      var n := |labels| - 1;
      Apply(job, store, Run(job, store, labels[..n]), labels[n])
  }

  lemma {:induction false} RunKeepsInv(job: Upload, store: Store, labels: seq<Label>)
    ensures Inv(job, Run(job, store, labels))
  {
    if labels == [] {
    } else {
      var n := |labels| - 1;
      RunKeepsInv(job, store, labels[..n]);
      StepKeepsInv(job, store, Run(job, store, labels[..n]), labels[n]);
    }
  }

  // ---- end to end: exit code 0 means the whole file was staged ----

  lemma {:induction false} BodiesLength(job: Upload, indices: seq<nat>)
    requires forall i :: 0 <= i < |indices| ==> 1 <= indices[i] < job.PacketCount()
    ensures |Bodies(job, indices)| == |indices| * job.packetLen
  {
    if indices == [] {
    } else {
      var n := |indices| - 1;
      BodiesLength(job, indices[..n]);
      assert |job.Body(indices[n])| == job.packetLen;
      DistributeOne(n, job.packetLen);
    }
  }

  lemma DistributeOne(n: nat, p: nat)
    ensures n * p + p == (n + 1) * p
  {
  }

  /** A strictly increasing sequence of indices from 1 on stays at or above its position. */
  lemma {:induction false} IncreasingFromOne(indices: seq<nat>, i: nat)
    requires i < |indices| && indices[0] >= 1
    requires forall i, j :: 0 <= i < j < |indices| ==> indices[i] < indices[j]
    ensures i + 1 <= indices[i] <= indices[|indices| - 1] - (|indices| - 1 - i)
    decreases i
  {
    if i == 0 {
    } else {
      IncreasingFromOne(indices, i - 1);
    }
    IncreasingToEnd(indices, i);
  }

  lemma {:induction false} IncreasingToEnd(indices: seq<nat>, i: nat)
    requires i < |indices|
    requires forall i, j :: 0 <= i < j < |indices| ==> indices[i] < indices[j]
    ensures indices[i] <= indices[|indices| - 1] - (|indices| - 1 - i)
    decreases |indices| - i
  {
    if i + 1 < |indices| { IncreasingToEnd(indices, i + 1); }
  }

  predicate Consecutive(indices: seq<nat>) {
    forall i :: 0 <= i < |indices| ==> indices[i] == i + 1
  }

  lemma {:induction false} ConsecutiveIsStream(job: Upload, indices: seq<nat>)
    requires |indices| < job.PacketCount() && Consecutive(indices)
    ensures Bodies(job, indices) == Stream(job, |indices|)
  {
    if indices == [] {
    } else {
      ConsecutiveIsStream(job, indices[..|indices| - 1]);
    }
  }

  lemma EnoughPackets(job: Upload, k: nat)
    requires k * job.packetLen >= |job.blob|
    ensures k >= job.PacketCount() - 1
  {
    CeilBounds(|job.blob|, job.packetLen);
    var q := job.PacketCount() - 1;
    assert k <= q - 1 ==> k * job.packetLen <= (q - 1) * job.packetLen;
  }

  /**
   * If the host exits with 0, the receiver finished with exactly the file staged. No bound on lost
   * packets, on noise or on stale ACKs is needed: packets are taken in strictly increasing order,
   * so a byte count equal to the file length leaves no room for a skipped or repeated packet.
   */
  lemma ExitZeroStagedFile(job: Upload, store: Store, labels: seq<Label>)
    ensures var s := Run(job, store, labels);
            s.tx == Exited(0) ==> s.rx.phase == Finished(|job.blob|) && s.rx.staged == job.blob
  {
    var s := Run(job, store, labels);
    RunKeepsInv(job, store, labels);
    if s.tx == Exited(0) {
      var n := |s.accepted|;
      BodiesLength(job, s.accepted);
      EnoughPackets(job, n);
      forall i | 0 <= i < n ensures s.accepted[i] == i + 1 {
        IncreasingFromOne(s.accepted, i);
      }
      ConsecutiveIsStream(job, s.accepted);
      StreamIsFile(job, n);
    }
  }

  // ---- the prefix property ----

  /** Packet 256, which carries the number of block 0, does not read as a header with a wrong size. */
  predicate NoFalseHeader(job: Upload) {
    256 < job.PacketCount() ==> Block0.ParseBlock0(job.Body(256)) in {None, Some(|job.blob|)}
  }

  /** How far ahead of the expected packet one may be without being taken for it or for a first block 0. */
  function Reach(job: Upload, rx: Rx): nat {
    if rx.ysize.Some? || NoFalseHeader(job) then 255 else 254
  }

  /** No packet on the line is out of reach. */
  predicate InWindow(job: Upload, s: State) {
    forall i :: 0 <= i < |s.fwd| && s.fwd[i].Pkt? ==> s.fwd[i].index <= s.rx.expected + Reach(job, s.rx)
  }

  ghost predicate WindowAlong(job: Upload, store: Store, labels: seq<Label>)
  {
    forall k :: 0 <= k <= |labels| ==> InWindow(job, Run(job, store, labels[..k]))
  }

  ghost predicate PrefixInv(job: Upload, rx: Rx, accepted: seq<nat>) {
    && Consecutive(accepted)
    && (rx.ysize.Some? ==> rx.ysize.value == |job.blob| && |rx.staged| <= |job.blob|)
  }

  /** The eight-bit number of packet `e` picks it out of the packets up to `k` ahead. */
  predicate PicksOut(e: nat, k: int) {
    forall j :: e - 1 <= j <= e + k ==> (j % 256 == e % 256 <==> j == e)
  }

  /** The number of the packet before `e` picks that one out. */
  predicate PicksOutRepeat(e: nat, k: int) {
    forall j :: e - 1 <= j <= e + k ==> (j % 256 == (e - 1) % 256 <==> j == e - 1)
  }

  /** Eight bits tell the expected packet apart up to 255 ahead, and the last repeat up to 254 ahead; no further. */
  lemma SequenceWindow(e: nat, k: int)
    requires e >= 1 && k >= -1
    ensures PicksOut(e, k) <==> k <= 255
    ensures PicksOutRepeat(e, k) <==> k <= 254
  {
    ExpectedWindow(e, k);
    RepeatWindow(e, k);
  }

  lemma ExpectedWindow(e: nat, k: int)
    requires e >= 1 && k >= -1
    ensures PicksOut(e, k) <==> k <= 255
  {
    if k > 255 {
      assert e - 1 <= e + 256 <= e + k && (e + 256) % 256 == e % 256;
    } else {
      forall j | e - 1 <= j <= e + k ensures j % 256 == e % 256 <==> j == e { SameResidue(j, e); }
    }
  }

  lemma RepeatWindow(e: nat, k: int)
    requires e >= 1 && k >= -1
    ensures PicksOutRepeat(e, k) <==> k <= 254
  {
    if k > 254 {
      assert e - 1 <= e + 255 <= e + k && (e + 255) % 256 == (e - 1) % 256;
    } else {
      forall j | e - 1 <= j <= e + k ensures j % 256 == (e - 1) % 256 <==> j == e - 1 { SameResidue(j, e - 1); }
    }
  }

  lemma SameResidue(j: int, e: int)
    requires -256 < j - e < 256
    ensures j % 256 == e % 256 <==> j == e
  {
    var qj, qe := j / 256, e / 256;
    assert j - e == 256 * (qj - qe) + (j % 256 - e % 256);
  }

  lemma Residues(i: nat, e: nat)
    requires 1 <= e && e - 1 <= i <= e + 254
    ensures i % 256 == e % 256 <==> i == e
    ensures i % 256 == (e + 255) % 256 <==> i == e - 1
    ensures e == 1 ==> (i % 256 == 0 <==> i == 0)
  {
    SameResidue(i, e);
    SameResidue(i, e - 1);
    assert e + 255 == e - 1 + 256;
  }

  lemma WindowedPacketKeepsPrefix(job: Upload, rx: Rx, rx': Rx, accepted: seq<nat>, i: nat, declared: Option<nat>)
    requires HistoryCount(rx, accepted) && PrefixInv(job, rx, accepted)
    requires Took(rx, rx') ==> Live(rx.phase) && i % 256 == rx.expected % 256
    requires SizeChange(rx, rx', i % 256, declared)
    requires rx.expected - 1 <= i <= rx.expected + Reach(job, rx) || !Live(rx.phase)
    requires i == 0 || (i == 256 && NoFalseHeader(job)) ==> declared in {None, Some(|job.blob|)}
    ensures PrefixInv(job, rx', if Took(rx, rx') then accepted + [i] else accepted)
  {
  }

  ghost predicate HistoryCount(rx: Rx, accepted: seq<nat>) {
    Live(rx.phase) ==> |accepted| == rx.expected - 1 && (accepted == [] ==> rx.staged == [])
  }

  lemma DeclaredSize(job: Upload, i: nat)
    requires i < job.PacketCount()
    ensures i == 0 || (i == 256 && NoFalseHeader(job)) ==> Block0.ParseBlock0(job.Body(i)) in {None, Some(|job.blob|)}
  {
    Block0.HeaderRoundTrip(job.name, |job.blob|);
  }

  /** The header fits its packet, and the size its ten digits. */
  ghost predicate Announced(job: Upload) {
    |job.Body(0)| == Block0.HEADER_LEN && |job.blob| < Pow10(Block0.MAX_DIGITS)
  }

  lemma HeaderArrives(job: Upload, store: Store)
    requires Announced(job)
    ensures Step(store, INITIAL, Arrival(job, Pkt(0))) == (Rx(Packets, 1, [], Some(|job.blob|), 0), [Ack])
  {
    HeaderAccepted(job, store);
    ArrivalOfHeader(job, 0);
  }

  lemma ArrivalOfHeader(job: Upload, i: nat)
    requires i == 0 && |job.Body(i)| == Block0.HEADER_LEN
    ensures Arrival(job, Pkt(i)) == Packet(i, job.Body(i))
  {
  }

  /** A header that fits declares the size of the file. */
  lemma HeaderAccepted(job: Upload, store: Store)
    requires |job.blob| < Pow10(Block0.MAX_DIGITS)
    ensures Step(store, INITIAL, Packet(0, job.Body(0))) == (Rx(Packets, 1, [], Some(|job.blob|), 0), [Ack])
  {
    Block0.HeaderRoundTrip(job.name, |job.blob|);
  }

  lemma PacketKeepsPrefix(job: Upload, store: Store, rx: Rx, accepted: seq<nat>, i: nat)
    requires HistoryCount(rx, accepted) && PrefixInv(job, rx, accepted) && i < job.PacketCount()
    requires rx.expected - 1 <= i <= rx.expected + Reach(job, rx) || !Live(rx.phase)
    ensures var rx' := Step(store, rx, Packet(i % 256, job.Body(i))).0;
            PrefixInv(job, rx', if Took(rx, rx') then accepted + [i] else accepted)
  {
    PacketEffect(store, rx, i % 256, job.Body(i));
    DeclaredSize(job, i);
    WindowedPacketKeepsPrefix(job, rx, Step(store, rx, Packet(i % 256, job.Body(i))).0, accepted, i,
        Block0.ParseBlock0(job.Body(i)));
  }

  /** The packet next on the line is in reach. */
  lemma InReach(job: Upload, s: State)
    requires Inv(job, s) && InWindow(job, s) && s.fwd != [] && s.fwd[0].Pkt?
    ensures HistoryCount(s.rx, s.accepted) && s.fwd[0].index < job.PacketCount()
    ensures s.rx.expected - 1 <= s.fwd[0].index <= s.rx.expected + Reach(job, s.rx) || !Live(s.rx.phase)
  {
    if Live(s.rx.phase) { LastAtLeast(s.accepted); }
  }

  lemma LastAtLeast(accepted: seq<nat>)
    requires forall i :: 0 <= i < |accepted| ==> 1 <= accepted[i]
    requires forall i, j :: 0 <= i < j < |accepted| ==> accepted[i] < accepted[j]
    ensures Last(accepted) >= |accepted|
  {
    if accepted != [] { IncreasingFromOne(accepted, |accepted| - 1); }
  }

  /** A step in which no packet is heard changes neither what is accepted nor the declared size. */
  lemma OtherStepKeepsPrefix(job: Upload, store: Store, s: State, l: Label)
    requires PrefixInv(job, s.rx, s.accepted)
    requires !(l == ReceiverHears && s.fwd != [] && Arrival(job, s.fwd[0]).Packet?)
    ensures var s' := Apply(job, store, s, l); PrefixInv(job, s'.rx, s'.accepted)
  {
    if l == ReceiverHears && s.fwd != [] {
      OtherEffect(store, s.rx, Arrival(job, s.fwd[0]));
    } else if l == ReceiverQuiet {
      OtherEffect(store, s.rx, Quiet);
    } else if l == ReceiverCap {
      OtherEffect(store, s.rx, CapReached);
    }
  }

  /** One step of a run that stays in the window keeps the accepted packets consecutive. */
  lemma StepKeepsPrefix(job: Upload, store: Store, s: State, l: Label)
    requires Inv(job, s) && PrefixInv(job, s.rx, s.accepted) && InWindow(job, s)
    ensures var s' := Apply(job, store, s, l); PrefixInv(job, s'.rx, s'.accepted)
  {
    if l == ReceiverHears && s.fwd != [] && Arrival(job, s.fwd[0]).Packet? {
      InReach(job, s);
      PacketKeepsPrefix(job, store, s.rx, s.accepted, s.fwd[0].index);
    } else {
      OtherStepKeepsPrefix(job, store, s, l);
    }
  }

  lemma {:induction false} RunKeepsPrefix(job: Upload, store: Store, labels: seq<Label>)
    requires WindowAlong(job, store, labels)
    ensures var s := Run(job, store, labels); PrefixInv(job, s.rx, s.accepted)
  {
    if labels == [] {
    } else {
      var n := |labels| - 1;
      var prev := labels[..n];
      assert forall k :: 0 <= k <= n ==> prev[..k] == labels[..k];
      RunKeepsPrefix(job, store, prev);
      RunKeepsInv(job, store, prev);
      StepKeepsPrefix(job, store, Run(job, store, prev), labels[n]);
    }
  }

  lemma PrefixOfPadded(job: Upload, staged: seq<Byte>, k: nat)
    requires k * job.packetLen <= |PaddedFile(job)| && staged <= PaddedFile(job)[..k * job.packetLen]
    ensures staged <= PaddedFile(job)
    ensures |staged| <= |job.blob| ==> staged <= job.blob
  {
  }

  /** The prefix property: packets taken in order, staged bytes a prefix of the stream and of the declared file. */
  ghost predicate PrefixHolds(job: Upload, s: State) {
    && Consecutive(s.accepted)
    && s.rx.staged <= PaddedFile(job)
    && (s.rx.ysize.Some? ==> s.rx.ysize.value == |job.blob| && s.rx.staged <= job.blob)
  }

  /**
   * In every run that stays in the window, at every moment, the staged bytes are a prefix of the
   * padded data stream, the packets taken are 1, 2, 3, ... without repetition or gap across any
   * number of wraps of the sequence number, and once block 0 was read the staged bytes are a
   * prefix of the file itself.
   */
  lemma StagedIsPrefix(job: Upload, store: Store, labels: seq<Label>)
    requires WindowAlong(job, store, labels)
    ensures PrefixHolds(job, Run(job, store, labels))
  {
    RunKeepsPrefix(job, store, labels);
    RunKeepsInv(job, store, labels);
    var s := Run(job, store, labels);
    var n := |s.accepted|;
    if n > 0 { assert s.accepted[n - 1] == n; }
    ConsecutiveIsStream(job, s.accepted);
    StreamIsFile(job, n);
    PrefixOfPadded(job, s.rx.staged, n);
  }

  /**
   * Inside the window a packet gets the verdict of its true index: a repeat is re-acknowledged and
   * changes nothing, block 0 declares the file size without moving on, any other gap aborts the
   * session with nothing staged.
   */
  lemma WindowVerdict(job: Upload, store: Store, rx: Rx, i: nat)
    requires i < job.PacketCount()
    requires rx.phase.Packets? && 1 <= rx.expected && rx.expected - 1 <= i <= rx.expected + 254
    ensures var (rx', out) := Step(store, rx, Packet(i % 256, job.Body(i)));
            && (i != rx.expected && i != rx.expected - 1 ==>
                  rx' == rx.(phase := Failed(-3)) && out == [Can, Can])
            && (i == rx.expected - 1 && (i > 0 || rx.ysize.Some?) ==> rx' == rx && out == [Ack])
            && (i == 0 && rx.ysize.None? && |job.blob| < Pow10(Block0.MAX_DIGITS) ==>
                  rx' == rx.(ysize := Some(|job.blob|)) && out == [Ack])
  {
    Residues(i, rx.expected);
    if i == 0 { Block0.HeaderRoundTrip(job.name, |job.blob|); }
  }

  // ---- why the window holds: the host's lead is paid for by stale ACKs ----

  function AcksIn(replies: seq<Reply>): nat {
    multiset(replies)[Ack]
  }

  /** While packets are being sent, every ACK the host has counted, or that is on its way or lost, was sent or stale. */
  ghost predicate LeadInv(s: State) {
    s.tx.Waiting? ==>
      s.tx.index + AcksIn(s.back) + s.lostAcks
        == s.rx.expected - 1 + (if s.rx.ysize.Some? then 1 else 0) + s.staleAcks
  }

  /** The ACKs in an answer: one for a new packet or the size, and at most one stale one otherwise. */
  predicate AcksPaid(rx: Rx, rx': Rx, out: seq<Reply>) {
    && rx'.expected >= rx.expected && (rx.ysize.Some? ==> rx'.ysize == rx.ysize)
    && AcksIn(out) == rx'.expected - rx.expected + (if rx'.ysize != rx.ysize then 1 else 0)
                      + (if Ack in out && rx'.expected == rx.expected && rx'.ysize == rx.ysize then 1 else 0)
  }

  lemma AcceptAcks(store: Store, rx: Rx, body: seq<Byte>)
    ensures AcksPaid(rx, AcceptData(store, rx, body).0, AcceptData(store, rx, body).1)
  {
    var (staged', ok) := StageAll(store, rx.staged, body, rx.ysize);
    AcksInText(Report(|rx.staged|, |staged'|, rx.ysize));
  }

  lemma PacketAcks(store: Store, rx: Rx, seqNo: nat, body: seq<Byte>)
    ensures AcksPaid(rx, OnPacket(store, rx, seqNo, body).0, OnPacket(store, rx, seqNo, body).1)
  {
    AcceptAcks(store, rx, body);
  }

  lemma AckAccounting(store: Store, rx: Rx, ev: Event)
    ensures AcksPaid(rx, Step(store, rx, ev).0, Step(store, rx, ev).1)
  {
    if ev.Packet? { PacketAcks(store, rx.(phase := Packets), ev.seqNo, ev.body); }
  }

  lemma AcksInText(text: seq<Reply>)
    requires forall i :: 0 <= i < |text| ==> text[i].Text?
    ensures AcksIn([Ack] + text) == 1 && AcksIn(text) == 0
  {
  }

  lemma ReceiverKeepsLead(store: Store, s: State, ev: Event, origin: Option<nat>, fwd: seq<Item>)
    requires LeadInv(s)
    ensures LeadInv(ReceiverStep(store, s, ev, origin, fwd))
  {
    AckAccounting(store, s.rx, ev);
  }

  lemma AcksWithout(replies: seq<Reply>, at: nat)
    requires at < |replies|
    ensures AcksIn(replies) == AcksIn(Without(replies, at)) + if replies[at] == Ack then 1 else 0
  {
    assert replies == replies[..at] + [replies[at]] + replies[at + 1..];
  }

  lemma AcksInserted(replies: seq<Reply>, at: nat, reply: Reply)
    requires at <= |replies|
    ensures AcksIn(Inserted(replies, at, reply)) == AcksIn(replies) + if reply == Ack then 1 else 0
  {
    assert replies == replies[..at] + replies[at..];
  }

  lemma BackLineKeepsLead(job: Upload, store: Store, s: State, l: Label)
    requires LeadInv(s) && (l.DropBack? || l.NoiseBack?)
    ensures LeadInv(Apply(job, store, s, l))
  {
    match l
    case DropBack(at) => if at < |s.back| { AcksWithout(s.back, at); }
    case NoiseBack(at, reply) => if at <= |s.back| { AcksInserted(s.back, at, reply); }
    case _ =>
  }

  lemma StepKeepsLead(job: Upload, store: Store, s: State, l: Label)
    requires LeadInv(s)
    ensures LeadInv(Apply(job, store, s, l))
  {
    match l
    case HostHears => if s.back != [] { assert s.back == [s.back[0]] + s.back[1..]; }
    case HostQuiet =>
    case ReceiverHears =>
      if s.fwd != [] {
        var item := s.fwd[0];
        ReceiverKeepsLead(store, s, Arrival(job, item), if item.Pkt? then Some(item.index) else None, s.fwd[1..]);
      }
    case ReceiverQuiet => ReceiverKeepsLead(store, s, Quiet, None, s.fwd);
    case ReceiverCap => ReceiverKeepsLead(store, s, CapReached, None, s.fwd);
    case DropForward(_) =>
    case NoiseForward(_, _) =>
    case _ => BackLineKeepsLead(job, store, s, l);
  }

  const STALE_LIMIT := 256

  /** Of the stale ACKs so far, those that were neither lost nor are still on the line number fewer than `n`. */
  predicate StaleBelow(s: State, n: int) {
    s.staleAcks < n + s.lostAcks + AcksIn(s.back)
  }

  ghost predicate StaleBelowAlong(job: Upload, store: Store, labels: seq<Label>, n: int) {
    forall k :: 0 <= k <= |labels| ==> StaleBelow(Run(job, store, labels[..k]), n)
  }

  lemma StepKeepsWindow(job: Upload, store: Store, s: State, l: Label)
    requires InWindow(job, s) && LeadInv(Apply(job, store, s, l)) && StaleBelow(Apply(job, store, s, l), STALE_LIMIT)
    ensures InWindow(job, Apply(job, store, s, l))
  {
    match l
    case ReceiverHears => if s.fwd != [] { AckAccounting(store, s.rx, Arrival(job, s.fwd[0])); }
    case ReceiverQuiet => AckAccounting(store, s.rx, Quiet);
    case ReceiverCap => AckAccounting(store, s.rx, CapReached);
    case _ =>
  }

  /** Conservation of ACKs over every run: the host's lead is exactly what stale ACKs paid for. */
  lemma {:induction false} LeadIsPaidFor(job: Upload, store: Store, labels: seq<Label>)
    ensures LeadInv(Run(job, store, labels))
  {
    if labels == [] {
    } else {
      var n := |labels| - 1;
      LeadIsPaidFor(job, store, labels[..n]);
      StepKeepsLead(job, store, Run(job, store, labels[..n]), labels[n]);
    }
  }

  /** A run whose effective stale ACKs stay below 256 stays in the window. */
  lemma {:induction false} FewStaleAcksKeepWindow(job: Upload, store: Store, labels: seq<Label>, k: nat)
    requires k <= |labels| && StaleBelowAlong(job, store, labels, STALE_LIMIT)
    ensures InWindow(job, Run(job, store, labels[..k]))
    decreases k
  {
    if k == 0 {
      assert labels[..0] == [];
    } else {
      FewStaleAcksKeepWindow(job, store, labels, k - 1);
      LeadIsPaidFor(job, store, labels[..k]);
      assert labels[..k][..k - 1] == labels[..k - 1];
      StepKeepsWindow(job, store, Run(job, store, labels[..k - 1]), labels[k - 1]);
    }
  }

  /** A file of at most 256 data packets never leaves the window, whatever ACKs the host counts. */
  lemma ShortFileKeepsPrefix(job: Upload, store: Store, labels: seq<Label>)
    requires job.PacketCount() <= 256 || (job.PacketCount() == 257 && NoFalseHeader(job))
    ensures PrefixHolds(job, Run(job, store, labels))
  {
    forall k | 0 <= k <= |labels| ensures InWindow(job, Run(job, store, labels[..k])) {
      RunKeepsInv(job, store, labels[..k]);
    }
    StagedIsPrefix(job, store, labels);
  }

  /** The prefix property for every run with fewer than 256 effective stale ACKs at any moment. */
  lemma FewStaleAcksKeepPrefix(job: Upload, store: Store, labels: seq<Label>, n: int)
    requires n <= STALE_LIMIT && StaleBelowAlong(job, store, labels, n)
    ensures PrefixHolds(job, Run(job, store, labels))
  {
    forall k | 0 <= k <= |labels| ensures StaleBelow(Run(job, store, labels[..k]), STALE_LIMIT) {
      assert StaleBelow(Run(job, store, labels[..k]), n);
    }
    forall k | 0 <= k <= |labels| ensures InWindow(job, Run(job, store, labels[..k])) {
      FewStaleAcksKeepWindow(job, store, labels, k);
    }
    StagedIsPrefix(job, store, labels);
  }
}
