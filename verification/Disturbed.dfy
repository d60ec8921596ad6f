/**
 * Uploads whose packets are lost or garbled on their way: exactly how many of these the two ends put up with before
 * the upload fails.
 */
module Disturbed {
  import opened Bytes
  import Block0
  import C = Completion
  import opened Receiver
  import opened Sender
  import opened Spill
  import opened Transfer
  import T = TransferTheorems
  import U = Undisturbed

  /** What may happen to one copy of a packet. */
  datatype Fault = Lost | Garbled

  /** The copy vanishes and the host times out, or it arrives garbled and the host hears the answer. */
  function FaultLabels(f: Fault): seq<Label> {
    match f
    case Lost => [DropForward(0), HostQuiet]
    case Garbled => [DropForward(0), NoiseForward(0, TornItem), ReceiverHears, HostHears]
  }

  function AllFaults(fs: seq<Fault>): seq<Label> {
    if fs == [] then [] else FaultLabels(fs[0]) + AllFaults(fs[1..])
  }

  function Garblings(fs: seq<Fault>): nat {
    if fs == [] then 0 else (if fs[0] == Garbled then 1 else 0) + Garblings(fs[1..])
  }

  function Losses(n: nat): seq<Fault> {
    seq(n, _ => Lost)
  }

  function Repeat(l: Label, n: nat): seq<Label> {
    if n == 0 then [] else [l] + Repeat(l, n - 1)
  }

  /** The host hears the text before item `i`, the item is hit by its faults, and then it gets through. */
  function ItemLabels(job: Upload, i: nat, fs: seq<Fault>): seq<Label> {
    Repeat(HostHears, |U.LeadOf(job)(i)|) + (AllFaults(fs) + [ReceiverHears, HostHears])
  }

  function PacketLabels(job: Upload, faults: nat -> seq<Fault>, n: nat): seq<Label> {
    if n == 0 then [] else PacketLabels(job, faults, n - 1) + ItemLabels(job, n - 1, faults(n - 1))
  }

  /** The whole upload: every packet with its faults, `late` lost EOTs, and the EOT that gets through. */
  function Script(job: Upload, faults: nat -> seq<Fault>, late: nat): seq<Label> {
    PacketLabels(job, faults, job.PacketCount()) + (AllFaults(Losses(late)) + [ReceiverHears, HostHears, HostHears])
  }

  /**
   * No packet is hit more than ten times, the EOT not more than twice, and block 0 and the first data packet together
   * are not garbled more than ten times: the receiver counts rejections until it has taken a data packet.
   */
  ghost predicate Survives(job: Upload, faults: nat -> seq<Fault>, late: nat) {
    && (forall i: nat :: i < job.PacketCount() ==> |faults(i)| <= 10)
    && Garblings(faults(0)) + Garblings(faults(1)) <= 10 && late <= 2
  }

  // ---- runs from a state ----

  function From(job: Upload, store: Store, s: State, labels: seq<Label>): State
    decreases |labels|
  {
    if labels == [] then s else From(job, store, Apply(job, store, s, labels[0]), labels[1..])
  }

  lemma {:induction false} FromAppend(job: Upload, store: Store, s: State, a: seq<Label>, b: seq<Label>)
    ensures From(job, store, s, a + b) == From(job, store, From(job, store, s, a), b)
    decreases |a|
  {
    if a == [] {
      assert a + b == b;
    } else {
      assert (a + b)[1..] == a[1..] + b;
      FromAppend(job, store, Apply(job, store, s, a[0]), a[1..], b);
    }
  }

  lemma {:induction false} RunIsFrom(job: Upload, store: Store, labels: seq<Label>)
    ensures T.Run(job, store, labels) == From(job, store, Start(), labels)
  {
    if labels == [] {
    } else {
      var n := |labels| - 1;
      RunIsFrom(job, store, labels[..n]);
      FromAppend(job, store, Start(), labels[..n], [labels[n]]);
      assert labels[..n] + [labels[n]] == labels;
      var s := From(job, store, Start(), labels[..n]);
      assert [labels[n]][1..] == [] && From(job, store, s, [labels[n]]) == Apply(job, store, s, labels[n]);
    }
  }

  lemma FromOne(job: Upload, store: Store, s: State, l: Label, rest: seq<Label>, labels: seq<Label>)
    requires labels == [l] + rest
    ensures From(job, store, s, labels) == From(job, store, Apply(job, store, s, l), rest)
  {
    assert labels[1..] == rest;
  }

  // ---- the upload is lost ----

  /** The host has given up or the receiver has. */
  predicate IsLost(s: State) {
    s.tx == Exited(3) || s.rx.phase.Failed?
  }

  lemma StaysLost(job: Upload, store: Store, s: State, l: Label)
    requires IsLost(s)
    ensures IsLost(Apply(job, store, s, l))
  {
  }

  lemma {:induction false} StaysLostAlong(job: Upload, store: Store, s: State, labels: seq<Label>)
    requires IsLost(s)
    ensures IsLost(From(job, store, s, labels))
    decreases |labels|
  {
    if labels == [] {
    } else {
      StaysLost(job, store, s, labels[0]);
      StaysLostAlong(job, store, Apply(job, store, s, labels[0]), labels[1..]);
    }
  }

  // ---- one copy of a packet ----

  /** The receiver before packet `i`, with `r` rejections since it last took a data packet. */
  function Ready(job: Upload, i: nat, r: nat): Rx
    requires i <= job.PacketCount()
  {
    if i == 0 then (if r == 0 then INITIAL else INITIAL.(phase := Packets, retries := r))
    else C.Taking(job, i).(retries := r)
  }

  function SpillUpTo(job: Upload, i: nat): nat {
    U.SpillAt(U.CourseOf(job), i)
  }

  /** The `a`-th copy of packet `i` is on the line, and the host has heard everything said before. */
  predicate Stands(job: Upload, s: State, i: nat, a: nat, r: nat) {
    && i < job.PacketCount() && 1 <= a <= 11 && r <= 10
    && s.tx == Waiting(i, a, SpillUpTo(job, i + 1)) && s.rx == Ready(job, i, r) && s.fwd == [Pkt(i)] && s.back == []
  }

  lemma LostCopy(job: Upload, store: Store, s: State, i: nat, a: nat, r: nat)
    requires Stands(job, s, i, a, r)
    ensures var s' := From(job, store, s, FaultLabels(Lost));
            if a < 11 then Stands(job, s', i, a + 1, r) else IsLost(s')
  {
    var s1 := s.(fwd := []);
    assert Without(s.fwd, 0) == [];
    FromOne(job, store, s, DropForward(0), [HostQuiet], FaultLabels(Lost));
    FromOne(job, store, s1, HostQuiet, [], [HostQuiet]);
    PacketAnswers(job, i, a, s.tx.spill);
    assert [] + [Pkt(i)] == [Pkt(i)];
  }

  lemma GarbledHeard(job: Upload, store: Store, s: State, i: nat, r: nat)
    requires i < job.PacketCount() && s.rx == Ready(job, i, r) && s.fwd == [TornItem] && s.back == []
    ensures var s' := Apply(job, store, s, ReceiverHears);
            && s'.tx == s.tx && s'.fwd == []
            && (r < 10 ==> s'.rx == Ready(job, i, r + 1) && s'.back == [Nak]) && (r >= 10 ==> s'.rx.phase.Failed?)
  {
    var rx := s.rx.(phase := Packets);
    RejectionLaw(store, rx, BadBody);
    if s.rx.phase.Handshake? { HandshakeLaw(store, s.rx, BadBody); }
    var (rx', out) := Step(store, s.rx, BadBody);
    assert s.fwd == [TornItem] + [] && [] + out == out;
    HearsFirst(job, store, s, TornItem, [], BadBody, rx', out);
  }

  lemma NakHeard(job: Upload, store: Store, s: State, i: nat, a: nat)
    requires i < job.PacketCount() && 1 <= a && s.tx.Waiting? && s.tx.index == i && s.tx.attempt == a
    requires s.fwd == [] && s.back == [Nak]
    ensures var s' := Apply(job, store, s, HostHears);
            if a < 11 then s' == s.(tx := s.tx.(attempt := a + 1), fwd := [Pkt(i)], back := []) else s'.tx == Exited(3)
  {
    PacketAnswers(job, i, a, s.tx.spill);
    assert s.back == [Nak] + [] && [] + [Pkt(i)] == [Pkt(i)];
    var (tx', sent) := Hear(job, s.tx, Some(Nak));
    U.HostHearsAt(job, store, s, Nak, [], tx', sent);
  }

  lemma CopyGarbled(job: Upload, store: Store, s: State, i: nat)
    requires s.fwd == [Pkt(i)]
    ensures From(job, store, s, [DropForward(0), NoiseForward(0, TornItem)]) == s.(fwd := [TornItem])
  {
    assert Without(s.fwd, 0) == [] && Inserted([], 0, TornItem) == [TornItem];
    TwoSteps(job, store, s, DropForward(0), NoiseForward(0, TornItem));
  }

  lemma GarbledCopy(job: Upload, store: Store, s: State, i: nat, a: nat, r: nat)
    requires Stands(job, s, i, a, r)
    ensures var s' := From(job, store, s, FaultLabels(Garbled));
            if a < 11 && r < 10 then Stands(job, s', i, a + 1, r + 1) else IsLost(s')
  {
    var s2 := s.(fwd := [TornItem]);
    var s3 := Apply(job, store, s2, ReceiverHears);
    CopyGarbled(job, store, s, i);
    assert FaultLabels(Garbled) == [DropForward(0), NoiseForward(0, TornItem)] + [ReceiverHears, HostHears];
    FromAppend(job, store, s, [DropForward(0), NoiseForward(0, TornItem)], [ReceiverHears, HostHears]);
    TwoSteps(job, store, s2, ReceiverHears, HostHears);
    GarbledHeard(job, store, s2, i, r);
    if r < 10 {
      NakHeard(job, store, s3, i, a);
    } else {
      StaysLost(job, store, s3, HostHears);
    }
  }

  /** A packet survives its faults exactly when the host has copies left and the receiver patience. */
  lemma {:induction false} FaultsPass(job: Upload, store: Store, s: State, i: nat, a: nat, r: nat, fs: seq<Fault>)
    requires Stands(job, s, i, a, r)
    ensures var s' := From(job, store, s, AllFaults(fs));
            if a + |fs| <= 11 && r + Garblings(fs) <= 10 then Stands(job, s', i, a + |fs|, r + Garblings(fs))
            else IsLost(s')
    decreases |fs|
  {
    if fs == [] {
    } else {
      var s1 := From(job, store, s, FaultLabels(fs[0]));
      FromAppend(job, store, s, FaultLabels(fs[0]), AllFaults(fs[1..]));
      FaultPasses(job, store, s, i, a, r, fs[0]);
      if IsLost(s1) {
        StaysLostAlong(job, store, s1, AllFaults(fs[1..]));
      } else {
        FaultsPass(job, store, s1, i, a + 1, r + Garblings([fs[0]]), fs[1..]);
      }
    }
  }

  lemma FaultPasses(job: Upload, store: Store, s: State, i: nat, a: nat, r: nat, f: Fault)
    requires Stands(job, s, i, a, r)
    ensures var s' := From(job, store, s, FaultLabels(f));
            var r' := r + Garblings([f]);
            if a < 11 && r' <= 10 then Stands(job, s', i, a + 1, r') && !IsLost(s') else IsLost(s')
  {
    assert [f][1..] == [];
    match f
    case Lost => LostCopy(job, store, s, i, a, r);
    case Garbled => GarbledCopy(job, store, s, i, a, r);
  }

  // ---- a packet that gets through ----

  /** Rejections before a packet do not matter once it is taken; only block 0 does not end their count. */
  function Carried(i: nat, r: nat): nat {
    if i == 0 then r else 0
  }

  lemma HeaderAnyway(job: Upload, store: Store, r: nat)
    requires C.Feasible(job, store)
    ensures job.PacketCount() >= 2
    ensures Step(store, Ready(job, 0, r), Arrival(job, Pkt(0))) == (Ready(job, 1, r), [Ack])
  {
    C.HeaderTaken(job, store);
    C.FeasibleIsAnnounced(job, store);
    T.ArrivalOfHeader(job, 0);
    Block0.HeaderRoundTrip(job.name, |job.blob|);
    HeaderWithRejections(store, job.Body(0), |job.blob|, r);
    assert C.Part(job, 1) == [];
  }

  lemma HeaderWithRejections(store: Store, body: seq<Byte>, size: nat, r: nat)
    requires Block0.ParseBlock0(body) == Some(size)
    ensures Step(store, INITIAL.(phase := Packets, retries := r), Packet(0, body))
              == (Rx(Packets, 1, [], Some(size), r), [Ack])
    ensures Step(store, INITIAL, Packet(0, body)) == (Rx(Packets, 1, [], Some(size), 0), [Ack])
  {
  }

  lemma DataAnyway(job: Upload, store: Store, i: nat, r: nat)
    requires C.Feasible(job, store) && 1 <= i < job.PacketCount()
    ensures Step(store, Ready(job, i, r), Arrival(job, Pkt(i)))
              == (Ready(job, i + 1, if i + 1 == job.PacketCount() then r else 0), [Ack] + C.Tail(job, i))
  {
    C.PartStaged(job, store, i);
    C.DataTaken(store, Ready(job, i, r), i % 256, job.Body(i), C.Part(job, i + 1), |job.blob|);
    C.TailIs(job, i);
  }

  /** The host is about to hear what was said before packet `i`. */
  predicate Begins(job: Upload, s: State, i: nat, r: nat) {
    && i < job.PacketCount() && r <= 10
    && s.tx == Waiting(i, 1, SpillUpTo(job, i)) && s.rx == Ready(job, i, r)
    && s.fwd == [Pkt(i)] && s.back == U.LeadOf(job)(i)
  }

  /** The `a`-th EOT is on the line. */
  ghost predicate EotStands(job: Upload, s: State, a: nat) {
    && 1 <= a <= 3 && job.PacketCount() >= 1
    && s.tx == WaitingEot(a, 0, SpillUpTo(job, job.PacketCount()))
    && (exists r: nat :: s.rx == Ready(job, job.PacketCount(), r)) && s.fwd == [EotItem] && s.back == []
  }

  lemma TakenAndHeard(job: Upload, store: Store, s: State, i: nat, rx': Rx, text: seq<Reply>)
    requires i < job.PacketCount() && s.tx.Waiting? && s.tx.index == i && s.fwd == [Pkt(i)] && s.back == []
    requires Step(store, s.rx, Arrival(job, Pkt(i))) == (rx', [Ack] + text)
    ensures var s' := From(job, store, s, [ReceiverHears, HostHears]);
            && s'.rx == rx' && s'.back == text
            && (if i + 1 < job.PacketCount() then s'.tx == Waiting(i + 1, 1, s.tx.spill) && s'.fwd == [Pkt(i + 1)]
                else s'.tx == WaitingEot(1, 0, s.tx.spill) && s'.fwd == [EotItem])
  {
    var s1 := Apply(job, store, s, ReceiverHears);
    assert s.fwd == [Pkt(i)] + [] && [] + ([Ack] + text) == [Ack] + text;
    HearsFirst(job, store, s, Pkt(i), [], Arrival(job, Pkt(i)), rx', [Ack] + text);
    TwoSteps(job, store, s, ReceiverHears, HostHears);
    AckHeard(job, store, s1, i, text);
  }

  lemma AckHeard(job: Upload, store: Store, s: State, i: nat, text: seq<Reply>)
    requires i < job.PacketCount() && s.tx.Waiting? && s.tx.index == i && s.fwd == [] && s.back == [Ack] + text
    ensures var s' := Apply(job, store, s, HostHears);
            && s'.rx == s.rx && s'.back == text
            && (if i + 1 < job.PacketCount() then s'.tx == Waiting(i + 1, 1, s.tx.spill) && s'.fwd == [Pkt(i + 1)]
                else s'.tx == WaitingEot(1, 0, s.tx.spill) && s'.fwd == [EotItem])
  {
    var (tx', sent) := Hear(job, s.tx, Some(Ack));
    U.HostHearsAt(job, store, s, Ack, text, tx', sent);
    assert [] + sent == sent;
  }

  lemma TwoSteps(job: Upload, store: Store, s: State, a: Label, b: Label)
    ensures From(job, store, s, [a, b]) == Apply(job, store, Apply(job, store, s, a), b)
  {
    FromOne(job, store, s, a, [b], [a, b]);
    FromOne(job, store, Apply(job, store, s, a), b, [], [b]);
  }

  lemma PacketPasses(job: Upload, store: Store, s: State, i: nat, a: nat, r: nat)
    requires C.Feasible(job, store) && Stands(job, s, i, a, r)
    ensures var s' := From(job, store, s, [ReceiverHears, HostHears]);
            if i + 1 < job.PacketCount() then Begins(job, s', i + 1, Carried(i, r)) else EotStands(job, s', 1)
  {
    if i == 0 {
      HeaderPasses(job, store, s, a, r);
    } else {
      DataPasses(job, store, s, i, a, r);
    }
  }

  lemma DataPasses(job: Upload, store: Store, s: State, i: nat, a: nat, r: nat)
    requires C.Feasible(job, store) && Stands(job, s, i, a, r) && i > 0
    ensures var s' := From(job, store, s, [ReceiverHears, HostHears]);
            if i + 1 < job.PacketCount() then Begins(job, s', i + 1, 0) else EotStands(job, s', 1)
  {
    var text, r' := C.Tail(job, i), if i + 1 == job.PacketCount() then r else 0;
    DataAnyway(job, store, i, r);
    TakenAndHeard(job, store, s, i, Ready(job, i + 1, r'), text);
    C.TailIs(job, i);
    assert U.LeadOf(job)(i + 1) == text;
  }

  lemma HeaderPasses(job: Upload, store: Store, s: State, a: nat, r: nat)
    requires C.Feasible(job, store) && Stands(job, s, 0, a, r)
    ensures job.PacketCount() >= 2 && Begins(job, From(job, store, s, [ReceiverHears, HostHears]), 1, r)
  {
    HeaderAnyway(job, store, r);
    assert [Ack] + [] == [Ack];
    TakenAndHeard(job, store, s, 0, Ready(job, 1, r), []);
  }

  // ---- the text before a packet ----

  lemma CourseFits(job: Upload, store: Store)
    requires C.Feasible(job, store) && |job.blob| <= LARGEST
    ensures U.Within(job, U.CourseOf(job))
    ensures forall i: nat :: i < job.PacketCount() ==> U.Speaks(job, U.CourseOf(job), i)
  {
    U.ExitCodeIs(job);
    U.CourseIsProper(job, store);
  }

  /** The host has heard `k` bytes of the text before packet `i`. */
  predicate Hearing(job: Upload, s: State, i: nat, r: nat, k: nat) {
    var lead := U.LeadOf(job)(i);
    && i < job.PacketCount() && r <= 10 && k <= |lead|
    && s.tx == Waiting(i, 1, SpillUpTo(job, i) + k) && s.rx == Ready(job, i, r)
    && s.fwd == [Pkt(i)] && s.back == lead[k..]
  }

  lemma HearsOne(job: Upload, store: Store, s: State, i: nat, r: nat, k: nat)
    requires C.Feasible(job, store) && |job.blob| <= LARGEST
    requires Hearing(job, s, i, r, k) && k < |U.LeadOf(job)(i)|
    ensures Hearing(job, Apply(job, store, s, HostHears), i, r, k + 1)
  {
    var c := U.CourseOf(job);
    CourseFits(job, store);
    U.TooMuch(c, i, k, job.PacketCount());
    assert c.lead(i)[k..] + [] == c.lead(i)[k..] && c.lead(i)[k + 1..] + [] == c.lead(i)[k + 1..];
    U.HearsText(job, store, c, s, i, k, []);
  }

  lemma {:induction false} HearsLead(job: Upload, store: Store, s: State, i: nat, r: nat, k: nat)
    requires C.Feasible(job, store) && |job.blob| <= LARGEST && Hearing(job, s, i, r, k)
    ensures var lead := U.LeadOf(job)(i);
            Hearing(job, From(job, store, s, Repeat(HostHears, |lead| - k)), i, r, |lead|)
    decreases |U.LeadOf(job)(i)| - k
  {
    var n := |U.LeadOf(job)(i)|;
    if k == n {
    } else {
      HearsOne(job, store, s, i, r, k);
      FromOne(job, store, s, HostHears, Repeat(HostHears, n - k - 1), Repeat(HostHears, n - k));
      HearsLead(job, store, Apply(job, store, s, HostHears), i, r, k + 1);
    }
  }

  lemma LeadHeard(job: Upload, store: Store, s: State, i: nat, r: nat)
    requires C.Feasible(job, store) && |job.blob| <= LARGEST && Begins(job, s, i, r)
    ensures Stands(job, From(job, store, s, Repeat(HostHears, |U.LeadOf(job)(i)|)), i, 1, r)
  {
    var lead := U.LeadOf(job)(i);
    assert lead[0..] == lead && lead[|lead|..] == [];
    HearsLead(job, store, s, i, r, 0);
    assert SpillUpTo(job, i + 1) == SpillUpTo(job, i) + |lead|;
  }

  // ---- packet by packet ----

  /** Packet `i` gets through its faults when `r` rejections were counted before it. */
  predicate GetsThrough(r: nat, fs: seq<Fault>) {
    |fs| <= 10 && r + Garblings(fs) <= 10
  }

  lemma ItemPasses(job: Upload, store: Store, s: State, i: nat, r: nat, fs: seq<Fault>)
    requires C.Feasible(job, store) && |job.blob| <= LARGEST && Begins(job, s, i, r)
    ensures var s' := From(job, store, s, ItemLabels(job, i, fs));
            if !GetsThrough(r, fs) then IsLost(s')
            else if i + 1 < job.PacketCount() then Begins(job, s', i + 1, Carried(i, r + Garblings(fs)))
            else EotStands(job, s', 1)
  {
    var lead, last := Repeat(HostHears, |U.LeadOf(job)(i)|), [ReceiverHears, HostHears];
    var s1 := From(job, store, s, lead);
    var s2 := From(job, store, s1, AllFaults(fs));
    FromAppend(job, store, s, lead, AllFaults(fs) + last);
    FromAppend(job, store, s1, AllFaults(fs), last);
    LeadHeard(job, store, s, i, r);
    FaultsPass(job, store, s1, i, 1, r, fs);
    if GetsThrough(r, fs) {
      PacketPasses(job, store, s2, i, 1 + |fs|, r + Garblings(fs));
    } else {
      StaysLostAlong(job, store, s2, last);
    }
  }

  /** The rejections counted before packet `i`: those of block 0 before the first data packet. */
  function Counted(faults: nat -> seq<Fault>, i: nat): nat {
    if i == 1 then Garblings(faults(0)) else 0
  }

  /** The first `n` packets get through. */
  ghost predicate AllThrough(faults: nat -> seq<Fault>, n: nat) {
    forall i: nat :: i < n ==> GetsThrough(Counted(faults, i), faults(i))
  }

  /** After the first `n` packets the upload is where it should be, or lost if one of them did not get through. */
  ghost predicate Stage(job: Upload, faults: nat -> seq<Fault>, s: State, n: nat) {
    if !AllThrough(faults, n) then IsLost(s)
    else if n < job.PacketCount() then Begins(job, s, n, Counted(faults, n))
    else EotStands(job, s, 1)
  }

  lemma NextStage(job: Upload, store: Store, faults: nat -> seq<Fault>, s: State, n: nat)
    requires C.Feasible(job, store) && |job.blob| <= LARGEST && n < job.PacketCount() && Stage(job, faults, s, n)
    ensures Stage(job, faults, From(job, store, s, ItemLabels(job, n, faults(n))), n + 1)
  {
    assert AllThrough(faults, n + 1) <==> AllThrough(faults, n) && GetsThrough(Counted(faults, n), faults(n));
    if AllThrough(faults, n) {
      ItemPasses(job, store, s, n, Counted(faults, n), faults(n));
    } else {
      StaysLostAlong(job, store, s, ItemLabels(job, n, faults(n)));
    }
  }

  lemma FirstStage(job: Upload, faults: nat -> seq<Fault>)
    ensures Stage(job, faults, Start(), 0)
  {
    assert job.PacketCount() > 0 && SpillUpTo(job, 0) == 0;
  }

  lemma {:induction false} PacketStages(job: Upload, store: Store, faults: nat -> seq<Fault>, n: nat)
    requires C.Feasible(job, store) && |job.blob| <= LARGEST && n <= job.PacketCount()
    ensures Stage(job, faults, From(job, store, Start(), PacketLabels(job, faults, n)), n)
  {
    if n == 0 {
      FirstStage(job, faults);
    } else {
      PacketStages(job, store, faults, n - 1);
      FromAppend(job, store, Start(), PacketLabels(job, faults, n - 1), ItemLabels(job, n - 1, faults(n - 1)));
      NextStage(job, store, faults, From(job, store, Start(), PacketLabels(job, faults, n - 1)), n - 1);
    }
  }

  // ---- the EOT ----

  lemma LostEot(job: Upload, store: Store, s: State, a: nat)
    requires EotStands(job, s, a)
    ensures var s' := From(job, store, s, FaultLabels(Lost));
            if a < 3 then EotStands(job, s', a + 1) else IsLost(s')
  {
    var s1 := s.(fwd := []);
    assert Without(s.fwd, 0) == [];
    FromOne(job, store, s, DropForward(0), [HostQuiet], FaultLabels(Lost));
    FromOne(job, store, s1, HostQuiet, [], [HostQuiet]);
    EotAnswers(job, a, 0, s.tx.spill);
    assert [] + [EotItem] == [EotItem];
  }

  lemma {:induction false} LostEots(job: Upload, store: Store, s: State, a: nat, n: nat)
    requires EotStands(job, s, a)
    ensures var s' := From(job, store, s, AllFaults(Losses(n)));
            if a + n <= 3 then EotStands(job, s', a + n) else IsLost(s')
    decreases n
  {
    if n == 0 {
    } else {
      assert Losses(n)[1..] == Losses(n - 1);
      var s1 := From(job, store, s, FaultLabels(Lost));
      FromAppend(job, store, s, FaultLabels(Lost), AllFaults(Losses(n - 1)));
      LostEot(job, store, s, a);
      if a < 3 {
        LostEots(job, store, s1, a + 1, n - 1);
      } else {
        StaysLostAlong(job, store, s1, AllFaults(Losses(n - 1)));
      }
    }
  }

  lemma EotTaken(job: Upload, store: Store, rx: Rx, r: nat)
    requires C.Feasible(job, store) && job.PacketCount() >= 1 && rx == Ready(job, job.PacketCount(), r)
    ensures Step(store, rx, Eot).1 == [Ack, DoneLine(|job.blob|)]
  {
    C.FlushSucceeds(job, store);
    C.WholeFile(job);
    EotLaw(store, rx, Eot);
    EotLaw(store, C.Taking(job, job.PacketCount()), Eot);
  }

  lemma EotPasses(job: Upload, store: Store, s: State, a: nat)
    requires C.Feasible(job, store) && EotStands(job, s, a)
    ensures From(job, store, s, [ReceiverHears, HostHears, HostHears]).tx == Exited(0)
  {
    var r: nat :| s.rx == Ready(job, job.PacketCount(), r);
    EotTaken(job, store, s.rx, r);
    var done := DoneLine(|job.blob|);
    var s1 := Apply(job, store, s, ReceiverHears);
    assert s.fwd == [EotItem] + [] && [] + [Ack, done] == [Ack, done] && [Ack, done] == [Ack] + [done];
    HearsFirst(job, store, s, EotItem, [], Eot, Step(store, s.rx, Eot).0, [Ack, done]);
    FromOne(job, store, s, ReceiverHears, [HostHears, HostHears], [ReceiverHears, HostHears, HostHears]);
    ReportHeard(job, store, s1, a, done);
  }

  lemma ReportHeard(job: Upload, store: Store, s: State, a: nat, done: Reply)
    requires 1 <= a <= 3 && s.tx.WaitingEot? && s.tx.sends == a && s.tx.polls == 0
    requires done == DoneLine(|job.blob|) && s.back == [Ack] + [done]
    ensures From(job, store, s, [HostHears, HostHears]).tx == Exited(0)
  {
    EotAnswers(job, a, 0, s.tx.spill);
    ReportAnswers(job, |job.blob|);
    U.HostHearsAt(job, store, s, Ack, [done], AwaitDone, []);
    var s1 := Apply(job, store, s, HostHears);
    assert s1.back == [done] + [];
    U.HostHearsAt(job, store, s1, done, [], Exited(0), []);
    FromOne(job, store, s, HostHears, [HostHears], [HostHears, HostHears]);
    FromOne(job, store, s1, HostHears, [], [HostHears]);
  }

  // ---- the whole upload ----

  lemma ThroughIsSurvival(job: Upload, faults: nat -> seq<Fault>, late: nat)
    ensures Survives(job, faults, late) <==> AllThrough(faults, job.PacketCount()) && late <= 2
  {
    C.WholeFile(job);
    forall i: nat ensures Garblings(faults(i)) <= |faults(i)| { FewGarblings(faults(i)); }
    if AllThrough(faults, job.PacketCount()) {
      assert GetsThrough(Counted(faults, 1), faults(1));
    }
  }

  lemma {:induction false} FewGarblings(fs: seq<Fault>)
    ensures Garblings(fs) <= |fs|
  {
    if fs == [] {
    } else {
      FewGarblings(fs[1..]);
    }
  }

  lemma LostIsNotZero(job: Upload, store: Store, labels: seq<Label>)
    requires IsLost(T.Run(job, store, labels))
    ensures T.Run(job, store, labels).tx != Exited(0)
  {
    T.RunKeepsInv(job, store, labels);
  }

  lemma ScriptEnds(job: Upload, store: Store, faults: nat -> seq<Fault>, late: nat)
    requires C.Feasible(job, store) && |job.blob| <= LARGEST
    ensures var s := From(job, store, Start(), Script(job, faults, late));
            if AllThrough(faults, job.PacketCount()) && late <= 2 then s.tx == Exited(0) else IsLost(s)
  {
    var packets, last := PacketLabels(job, faults, job.PacketCount()), [ReceiverHears, HostHears, HostHears];
    var eots := AllFaults(Losses(late));
    var s1 := From(job, store, Start(), packets);
    var s2 := From(job, store, s1, eots);
    assert Script(job, faults, late) == packets + (eots + last);
    FromAppend(job, store, Start(), packets, eots + last);
    FromAppend(job, store, s1, eots, last);
    PacketStages(job, store, faults, job.PacketCount());
    if !AllThrough(faults, job.PacketCount()) {
      StaysLostAlong(job, store, s1, eots + last);
    } else {
      LostEots(job, store, s1, 1, late);
      if late <= 2 {
        EotPasses(job, store, s2, 1 + late);
      } else {
        StaysLostAlong(job, store, s2, last);
      }
    }
  }

  /**
   * A feasible upload of at most 16,121,856 bytes, whatever packets are lost and garbled and however often, ends with
   * exit code 0 exactly when no packet is hit more than ten times, block 0 and the first data packet together are not
   * garbled more than ten times, and the EOT is not lost more than twice.
   */
  lemma SurvivesExactly(job: Upload, store: Store, faults: nat -> seq<Fault>, late: nat)
    requires C.Feasible(job, store) && |job.blob| <= LARGEST
    ensures T.Run(job, store, Script(job, faults, late)).tx == Exited(0) <==> Survives(job, faults, late)
  {
    ThroughIsSurvival(job, faults, late);
    RunIsFrom(job, store, Script(job, faults, late));
    ScriptEnds(job, store, faults, late);
    if !Survives(job, faults, late) { LostIsNotZero(job, store, Script(job, faults, late)); }
  }

  /** Ten garbled copies of block 0 and one of the first packet are too many, though each alone is not. */
  lemma HeaderFaultsCount(job: Upload, store: Store, faults: nat -> seq<Fault>)
    requires C.Feasible(job, store) && |job.blob| <= LARGEST
    requires faults(0) == seq(10, _ => Garbled) && faults(1) == [Garbled] && forall i: nat :: i > 1 ==> faults(i) == []
    ensures T.Run(job, store, Script(job, faults, 0)).tx != Exited(0)
  {
    AllGarbled(10);
    assert [Garbled][1..] == [];
    SurvivesExactly(job, store, faults, 0);
  }

  lemma {:induction false} AllGarbled(n: nat)
    ensures Garblings(seq(n, _ => Garbled)) == n
  {
    var fs := seq(n, _ => Garbled);
    if n == 0 {
    } else {
      assert fs[1..] == seq(n - 1, _ => Garbled);
      AllGarbled(n - 1);
    }
  }
}
