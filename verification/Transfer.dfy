/**
 * The whole upload: host, receiver and the two directions of the serial line between them, which
 * are FIFO but may lose items and may carry noise.
 */
module Transfer {
  import opened Bytes
  import Block0
  import opened Receiver
  import opened Sender

  /**
   * `accepted` is the history of packets taken into staging. `staleAcks` counts the ACKs that
   * answer no new packet (re-ACKs of duplicates, ACKs of an EOT, noise read as an ACK) and
   * `lostAcks` those the line dropped.
   */
  datatype State = State(
    tx: Tx, rx: Rx, fwd: seq<Item>, back: seq<Reply>, accepted: seq<nat>, staleAcks: nat, lostAcks: nat)

  /** One step of a run. The line may drop any item, and insert anything but an intact packet or report. */
  datatype Label =
    | HostHears | HostQuiet
    | ReceiverHears | ReceiverQuiet | ReceiverCap
    | DropForward(at: nat) | NoiseForward(at: nat, item: Item)
    | DropBack(at: nat) | NoiseBack(at: nat, reply: Reply)

  function Start(): State {
    State(Waiting(0, 1, 0), INITIAL, [Pkt(0)], [ChrC], [], 0, 0)
  }

  /** The last packet index the host has put on the line. */
  function HostIndex(job: Upload, tx: Tx): nat
  {
    if tx.Waiting? then tx.index else job.PacketCount() - 1
  }

  /** An over-long block 0 does not fit its 128-byte packet, so its CRC check fails. */
  function Arrival(job: Upload, item: Item): Event
  {
    match item
    case Pkt(i) => if i >= job.PacketCount() || (i == 0 && |job.Body(0)| != Block0.HEADER_LEN) then BadBody
        else Packet(i % 256, job.Body(i))
    case EotItem => Eot
    case CanItem => Cancel
    case StrayItem => BadStart
    case TornItem => BadBody
  }

  function Without<T>(s: seq<T>, at: nat): seq<T>
    requires at < |s|
  {
    s[..at] + s[at + 1..]
  }

  function Inserted<T>(s: seq<T>, at: nat, x: T): seq<T>
    requires at <= |s|
  {
    s[..at] + [x] + s[at..]
  }

  function HostStep(job: Upload, s: State, heard: Option<Reply>, back: seq<Reply>): State
  {
    var (tx', sent) := Hear(job, s.tx, heard);
    s.(tx := tx', fwd := s.fwd + sent, back := back)
  }

  function ReceiverStep(store: Store, s: State, ev: Event, origin: Option<nat>, fwd: seq<Item>): State
  {
    var (rx', out) := Step(store, s.rx, ev);
    var taken := Took(s.rx, rx');
    var stale := Ack in out && rx'.expected == s.rx.expected && rx'.ysize == s.rx.ysize;
    s.(rx := rx', fwd := fwd, back := s.back + out,
       accepted := if taken && origin.Some? then s.accepted + [origin.value] else s.accepted,
       staleAcks := s.staleAcks + if stale then 1 else 0)
  }

  /** The effect of one step; a step that is not enabled changes nothing. */
  function Apply(job: Upload, store: Store, s: State, l: Label): State
  {
    match l
    case HostHears =>
      if s.back == [] || s.tx.Exited? then s else HostStep(job, s, Some(s.back[0]), s.back[1..])
    case HostQuiet => HostStep(job, s, None, s.back)
    case ReceiverHears =>
      if s.fwd == [] then s
      else
        var item := s.fwd[0];
        ReceiverStep(store, s, Arrival(job, item), if item.Pkt? then Some(item.index) else None, s.fwd[1..])
    case ReceiverQuiet => ReceiverStep(store, s, Quiet, None, s.fwd)
    case ReceiverCap => ReceiverStep(store, s, CapReached, None, s.fwd)
    case DropForward(at) => if at < |s.fwd| then s.(fwd := Without(s.fwd, at)) else s
    case NoiseForward(at, item) =>
      if at <= |s.fwd| && !item.Pkt? then s.(fwd := Inserted(s.fwd, at, item)) else s
    case DropBack(at) =>
      if at < |s.back|
      then s.(back := Without(s.back, at), lostAcks := s.lostAcks + if s.back[at] == Ack then 1 else 0)
      else s
    case NoiseBack(at, reply) =>
      if at <= |s.back| && !reply.DoneLine?
      then s.(back := Inserted(s.back, at, reply), staleAcks := s.staleAcks + if reply == Ack then 1 else 0)
      else s
  }

  /** The receiver hears the first item on the line, and its answer is known. */
  lemma HearsFirst(job: Upload, store: Store, s: State, item: Item, rest: seq<Item>, ev: Event, rx': Rx,
                   out: seq<Reply>)
    requires s.fwd == [item] + rest && Arrival(job, item) == ev && Step(store, s.rx, ev) == (rx', out)
    ensures var s' := Apply(job, store, s, ReceiverHears);
            && s' == s.(rx := rx', fwd := rest, back := s.back + out,
                        accepted := s'.accepted, staleAcks := s'.staleAcks)
            && s'.accepted == (if Took(s.rx, rx') && item.Pkt? then s.accepted + [item.index] else s.accepted)
            && s'.staleAcks == s.staleAcks
                 + if Ack in out && rx'.expected == s.rx.expected && rx'.ysize == s.rx.ysize then 1 else 0
  {
    assert s.fwd[1..] == rest;
  }

  // ---- the invariant of every run ----

  function Bodies(job: Upload, indices: seq<nat>): seq<Byte>
    requires forall i :: 0 <= i < |indices| ==> indices[i] < job.PacketCount()
  {
    if indices == [] then []
    else Bodies(job, indices[..|indices| - 1]) + job.Body(indices[|indices| - 1])
  }

  function Last(s: seq<nat>): nat {
    if s == [] then 0 else s[|s| - 1]
  }

  ghost predicate LineInv(job: Upload, s: State) {
    && s.rx.expected >= 1
    && HostIndex(job, s.tx) < job.PacketCount()
    && (forall i :: 0 <= i < |s.fwd| && s.fwd[i].Pkt? ==> Last(s.accepted) <= s.fwd[i].index <= HostIndex(job, s.tx))
    && (forall i, j :: 0 <= i < j < |s.fwd| && s.fwd[i].Pkt? && s.fwd[j].Pkt? ==> s.fwd[i].index <= s.fwd[j].index)
    && Last(s.accepted) <= HostIndex(job, s.tx)
  }

  ghost predicate HistoryInv(job: Upload, rx: Rx, accepted: seq<nat>)
  {
    && rx.expected >= 1
    && (forall i :: 0 <= i < |accepted| ==> 1 <= accepted[i] < job.PacketCount())
    && (forall i, j :: 0 <= i < j < |accepted| ==> accepted[i] < accepted[j])
    && (Live(rx.phase) ==>
          && |accepted| == rx.expected - 1
          && (accepted != [] ==> Last(accepted) % 256 == (rx.expected - 1) % 256)
          && rx.staged == Bodies(job, accepted))
    && rx.staged <= Bodies(job, accepted)
  }

  ghost predicate ReportInv(job: Upload, s: State) {
    && (s.rx.phase.Finished? ==> s.rx.phase.total == |s.rx.staged|)
    && (forall i :: 0 <= i < |s.back| && s.back[i].DoneLine? ==> s.rx.phase == Finished(s.back[i].total))
    && (s.tx == Exited(0) ==> s.rx.phase == Finished(|job.blob|))
  }

  ghost predicate Inv(job: Upload, s: State) {
    LineInv(job, s) && HistoryInv(job, s.rx, s.accepted) && ReportInv(job, s)
  }

  lemma BodiesAppend(job: Upload, indices: seq<nat>, i: nat)
    requires i < job.PacketCount()
    requires forall k :: 0 <= k < |indices| ==> indices[k] < job.PacketCount()
    ensures forall k :: 0 <= k < |indices + [i]| ==> (indices + [i])[k] < job.PacketCount()
    ensures Bodies(job, indices + [i]) == Bodies(job, indices) + job.Body(i)
  {
    assert (indices + [i])[..|indices|] == indices;
  }

  lemma HostKeepsInv(job: Upload, s: State, heard: Option<Reply>, back: seq<Reply>)
    requires Inv(job, s)
    requires heard.Some? ==> s.back != [] && heard.value == s.back[0] && back == s.back[1..]
    requires heard.None? ==> back == s.back
    ensures Inv(job, HostStep(job, s, heard, back))
  {
    var s' := HostStep(job, s, heard, back);
    var sent := Hear(job, s.tx, heard).1;
    assert HostIndex(job, s.tx) <= HostIndex(job, s'.tx);
    assert |sent| <= 1 && (sent != [] && sent[0].Pkt? ==> sent[0].index == HostIndex(job, s'.tx));
    assert forall i :: 0 <= i < |s'.fwd| ==> s'.fwd[i] == if i < |s.fwd| then s.fwd[i] else sent[i - |s.fwd|];
    assert forall i :: 0 <= i < |back| ==> back[i] in s.back;
  }

  /** A packet taken into staging carries the expected number and is later than all taken before it. */
  lemma TakenKeepsHistory(job: Upload, rx: Rx, rx': Rx, accepted: seq<nat>, i: nat)
    requires i < job.PacketCount() && Last(accepted) <= i && rx'.expected >= 1
    requires HistoryInv(job, rx, accepted) && PacketChange(rx, rx', i % 256, job.Body(i)) && Took(rx, rx')
    ensures HistoryInv(job, rx', accepted + [i])
  {
    BodiesAppend(job, accepted, i);
    assert (rx.expected - 1) % 256 != rx.expected % 256;
    LaterIndex(accepted, i, job.PacketCount());
    assert Last(accepted + [i]) == i;
  }

  lemma LaterIndex(accepted: seq<nat>, i: nat, n: nat)
    requires forall k :: 0 <= k < |accepted| ==> 1 <= accepted[k] < n
    requires forall k, l :: 0 <= k < l < |accepted| ==> accepted[k] < accepted[l]
    requires 1 <= i < n && Last(accepted) < i
    ensures forall k :: 0 <= k < |accepted + [i]| ==> 1 <= (accepted + [i])[k] < n
    ensures forall k, l :: 0 <= k < l < |accepted + [i]| ==> (accepted + [i])[k] < (accepted + [i])[l]
  {
  }

  lemma PacketKeepsHistory(job: Upload, store: Store, s: State, i: nat, fwd: seq<Item>)
    requires Inv(job, s) && i < job.PacketCount() && Last(s.accepted) <= i
    ensures var s' := ReceiverStep(store, s, Packet(i % 256, job.Body(i)), Some(i), fwd);
            && HistoryInv(job, s'.rx, s'.accepted)
            && (s'.accepted == s.accepted || s'.accepted == s.accepted + [i])
  {
    PacketEffect(store, s.rx, i % 256, job.Body(i));
    var rx' := Step(store, s.rx, Packet(i % 256, job.Body(i))).0;
    if Took(s.rx, rx') {
      TakenKeepsHistory(job, s.rx, rx', s.accepted, i);
    }
  }

  lemma ReceiverKeepsReports(job: Upload, store: Store, s: State, ev: Event, origin: Option<nat>, fwd: seq<Item>)
    requires ReportInv(job, s)
    ensures ReportInv(job, ReceiverStep(store, s, ev, origin, fwd))
  {
    var out := Step(store, s.rx, ev).1;
    var s' := ReceiverStep(store, s, ev, origin, fwd);
    ReportsAreTrue(store, s.rx, ev);
    assert forall i :: 0 <= i < |s'.back| ==> s'.back[i] == if i < |s.back| then s.back[i] else out[i - |s.back|];
  }

  lemma OtherEventKeepsHistory(job: Upload, store: Store, s: State, ev: Event, origin: Option<nat>, fwd: seq<Item>)
    requires Inv(job, s) && !ev.Packet?
    ensures var s' := ReceiverStep(store, s, ev, origin, fwd);
            HistoryInv(job, s'.rx, s'.accepted) && s'.accepted == s.accepted
  {
    OtherEffect(store, s.rx, ev);
  }

  lemma PoppedLine(job: Upload, s: State, s': State)
    requires LineInv(job, s) && s.fwd != [] && s'.fwd == s.fwd[1..] && s'.tx == s.tx && s'.rx.expected >= 1
    requires s'.accepted == s.accepted || (s.fwd[0].Pkt? && s'.accepted == s.accepted + [s.fwd[0].index])
    ensures LineInv(job, s')
  {
    assert forall k :: 0 <= k < |s'.fwd| ==> s'.fwd[k] == s.fwd[k + 1];
  }

  lemma ReceiverHearsKeepsInv(job: Upload, store: Store, s: State)
    requires Inv(job, s) && s.fwd != []
    ensures Inv(job, Apply(job, store, s, ReceiverHears))
  {
    var item := s.fwd[0];
    var ev := Arrival(job, item);
    var origin := if item.Pkt? then Some(item.index) else None;
    var s' := Apply(job, store, s, ReceiverHears);
    ReceiverKeepsReports(job, store, s, ev, origin, s.fwd[1..]);
    if ev.Packet? {
      PacketKeepsHistory(job, store, s, item.index, s.fwd[1..]);
    } else {
      OtherEventKeepsHistory(job, store, s, ev, origin, s.fwd[1..]);
    }
    PoppedLine(job, s, s');
  }

  lemma ForwardChangeKeepsInv(job: Upload, s: State, fwd: seq<Item>, shift: int, at: nat)
    requires Inv(job, s)
    requires forall i :: 0 <= i < |fwd| && fwd[i].Pkt? ==>
               var k := if i < at then i else i + shift; 0 <= k < |s.fwd| && s.fwd[k] == fwd[i]
    requires shift == 1 || (shift == -1 && (at < |fwd| ==> !fwd[at].Pkt?))
    ensures Inv(job, s.(fwd := fwd))
  {
  }

  lemma BackChangeKeepsInv(job: Upload, s: State, back: seq<Reply>, stale: nat, lost: nat)
    requires Inv(job, s)
    requires forall r :: r in back && r.DoneLine? ==> r in s.back
    ensures Inv(job, s.(back := back, staleAcks := stale, lostAcks := lost))
  {
  }

  lemma ForwardLineKeepsInv(job: Upload, store: Store, s: State, l: Label)
    requires Inv(job, s) && (l.DropForward? || l.NoiseForward?)
    ensures Inv(job, Apply(job, store, s, l))
  {
    match l
    case DropForward(at) => if at < |s.fwd| { ForwardChangeKeepsInv(job, s, Without(s.fwd, at), 1, at); }
    case NoiseForward(at, item) =>
      if at <= |s.fwd| && !item.Pkt? { ForwardChangeKeepsInv(job, s, Inserted(s.fwd, at, item), -1, at); }
  }

  lemma BackLineKeepsInv(job: Upload, store: Store, s: State, l: Label)
    requires Inv(job, s) && (l.DropBack? || l.NoiseBack?)
    ensures Inv(job, Apply(job, store, s, l))
  {
    var s' := Apply(job, store, s, l);
    BackChangeKeepsInv(job, s, s'.back, s'.staleAcks, s'.lostAcks);
  }

  lemma ReceiverAloneKeepsInv(job: Upload, store: Store, s: State, ev: Event)
    requires Inv(job, s) && !ev.Packet?
    ensures Inv(job, ReceiverStep(store, s, ev, None, s.fwd))
  {
    OtherEventKeepsHistory(job, store, s, ev, None, s.fwd);
    ReceiverKeepsReports(job, store, s, ev, None, s.fwd);
  }

  /** Every step of every party, and everything the line may do, keeps the invariant. */
  lemma StepKeepsInv(job: Upload, store: Store, s: State, l: Label)
    requires Inv(job, s)
    ensures Inv(job, Apply(job, store, s, l))
  {
    match l
    case HostHears => if s.back != [] { HostKeepsInv(job, s, Some(s.back[0]), s.back[1..]); }
    case HostQuiet => HostKeepsInv(job, s, None, s.back);
    case ReceiverHears => if s.fwd != [] { ReceiverHearsKeepsInv(job, store, s); }
    case ReceiverQuiet => ReceiverAloneKeepsInv(job, store, s, Quiet);
    case ReceiverCap => ReceiverAloneKeepsInv(job, store, s, CapReached);
    case DropForward(_) => ForwardLineKeepsInv(job, store, s, l);
    case NoiseForward(_, _) => ForwardLineKeepsInv(job, store, s, l);
    case _ => BackLineKeepsInv(job, store, s, l);
  }
}
