/**
 * Uploads in which nothing is lost, late or garbled: host and receiver act in any order. Whether the host exits
 * with 0 is decided by the file alone.
 */
module Undisturbed {
  import opened Bytes
  import Block0
  import C = Completion
  import P = Progress
  import Ramdisk
  import opened Receiver
  import opened Sender
  import opened Spill
  import opened Transfer
  import T = TransferTheorems
  import B = RunBuilder
  import U = Upload

  /** Only the two ends act. */
  predicate NoLoss(labels: seq<Label>) {
    forall i :: 0 <= i < |labels| ==> Ordinary(labels[i])
  }

  predicate Ordinary(l: Label) {
    l == HostHears || l == ReceiverHears
  }

  // ---- how far an upload has come ----

  /**
   * The course of an undisturbed upload: what is on the line before the ACK of item `i`, and the receiver before
   * that item. Items are block 0, the data packets and the EOT.
   */
  datatype Course = Course(lead: nat -> seq<Reply>, rx: nat -> Rx)

  /** What comes back for item `i` after its ACK. */
  function Behind(job: Upload, c: Course, i: nat): seq<Reply> {
    if i < job.PacketCount() then c.lead(i + 1) else [DoneLine(|job.blob|)]
  }

  ghost predicate AnswersAt(job: Upload, store: Store, c: Course, i: nat) {
    Step(store, c.rx(i), Arrival(job, C.ItemAt(job, i))) == (c.rx(i + 1), [Ack] + Behind(job, c, i))
  }

  predicate IsText(text: seq<Reply>) {
    forall k :: 0 <= k < |text| ==> text[k].Text? || text[k].ChrC?
  }

  /** What comes before the ACK of item `i` is text; before that of the EOT there is none. */
  predicate Speaks(job: Upload, c: Course, i: nat) {
    IsText(c.lead(i)) && (c.lead(i) != [] ==> i < job.PacketCount())
  }

  ghost predicate Proper(job: Upload, store: Store, c: Course) {
    forall i: nat :: i <= job.PacketCount() ==> AnswersAt(job, store, c, i) && Speaks(job, c, i)
  }

  /** The bytes the host has discarded when it sends item `i`. */
  function SpillAt(c: Course, i: nat): nat {
    if i == 0 then 0 else SpillAt(c, i - 1) + |c.lead(i - 1)|
  }

  /**
   * `Sent(i, k)`: item `i` is under way and the host has heard `k` bytes since. `Answered(i, k)`: its answer is
   * under way too. `Last`: only the final report is. `Over(code)`: the host has exited.
   */
  datatype Pos = Sent(i: nat, k: nat) | Answered(i: nat, k: nat) | Last | Over(code: nat)

  function TxAt(job: Upload, c: Course, i: nat, k: nat): Tx {
    if i < job.PacketCount() then Waiting(i, 1, SpillAt(c, i) + k) else WaitingEot(1, 0, SpillAt(c, i) + k)
  }

  /** The host puts up with all the text of the course. */
  predicate Within(job: Upload, c: Course) {
    SpillAt(c, job.PacketCount()) <= SPILL_CAP
  }

  function ExitOf(job: Upload, c: Course): nat {
    if Within(job, c) then 0 else 3
  }

  predicate Counting(job: Upload, c: Course, tx: Tx, i: nat, k: nat) {
    && i <= job.PacketCount() && k <= |c.lead(i)|
    && SpillAt(c, i) + k <= SPILL_CAP && tx == TxAt(job, c, i, k)
  }

  ghost predicate IsAt(job: Upload, c: Course, s: State, pos: Pos) {
    match pos
    case Sent(i, k) =>
      && Counting(job, c, s.tx, i, k)
      && s.rx == c.rx(i) && s.fwd == [C.ItemAt(job, i)] && s.back == c.lead(i)[k..]
    case Answered(i, k) =>
      && Counting(job, c, s.tx, i, k)
      && s.rx == c.rx(i + 1) && s.fwd == [] && s.back == c.lead(i)[k..] + ([Ack] + Behind(job, c, i))
    case Last => s.tx == AwaitDone && s.fwd == [] && s.back == [DoneLine(|job.blob|)] && Within(job, c)
    case Over(code) => s.tx == Exited(code) && code == ExitOf(job, c)
  }

  lemma {:induction false} SpillGrows(c: Course, i: nat, j: nat)
    requires i <= j
    ensures SpillAt(c, i) <= SpillAt(c, j)
    decreases j
  {
    if i == j {
    } else {
      SpillGrows(c, i, j - 1);
    }
  }

  // ---- every step ----

  /** Where a step leads. */
  function Next(job: Upload, c: Course, pos: Pos, l: Label): Pos {
    match pos
    case Sent(i, k) =>
      if l == ReceiverHears then Answered(i, k)
      else if k == |c.lead(i)| then pos
      else if SpillAt(c, i) + k + 1 > SPILL_CAP then Over(3)
      else Sent(i, k + 1)
    case Answered(i, k) =>
      if l == ReceiverHears then pos
      else if k < |c.lead(i)| then (if SpillAt(c, i) + k + 1 > SPILL_CAP then Over(3) else Answered(i, k + 1))
      else if i < job.PacketCount() then Sent(i + 1, 0) else Last
    case Last => if l == ReceiverHears then pos else Over(0)
    case Over(_) => pos
  }

  lemma DiscardsByte(job: Upload, i: nat, spill: nat, heard: Reply)
    requires heard.Text? || heard.ChrC?
    ensures Hear(job, Waiting(i, 1, spill), Some(heard))
              == (if spill + 1 > SPILL_CAP then Exited(3) else Waiting(i, 1, spill + 1), [])
  {
  }

  lemma TooMuch(c: Course, i: nat, k: nat, n: nat)
    requires i < n && k < |c.lead(i)|
    ensures SpillAt(c, i) + k + 1 <= SpillAt(c, n)
  {
    SpillGrows(c, i + 1, n);
  }

  /** The host discards a byte of text, or gives up; then the text was too long. */
  lemma Discards(job: Upload, c: Course, tx: Tx, i: nat, k: nat)
    requires Speaks(job, c, i) && Counting(job, c, tx, i, k) && k < |c.lead(i)|
    ensures var tooMuch := SpillAt(c, i) + k + 1 > SPILL_CAP;
            && Hear(job, tx, Some(c.lead(i)[k])) == (if tooMuch then Exited(3) else TxAt(job, c, i, k + 1), [])
            && (tooMuch ==> !Within(job, c))
            && (!tooMuch ==> Counting(job, c, TxAt(job, c, i, k + 1), i, k + 1))
  {
    DiscardsByte(job, i, SpillAt(c, i) + k, c.lead(i)[k]);
    TooMuch(c, i, k, job.PacketCount());
  }

  /** The host hears the ACK of item `i` and goes on. */
  lemma GoesOn(job: Upload, c: Course, tx: Tx, i: nat, k: nat)
    requires Counting(job, c, tx, i, k) && k == |c.lead(i)|
    ensures i < job.PacketCount() ==>
              && Hear(job, tx, Some(Ack)) == (TxAt(job, c, i + 1, 0), [C.ItemAt(job, i + 1)])
              && Counting(job, c, TxAt(job, c, i + 1, 0), i + 1, 0)
    ensures i == job.PacketCount() ==> Hear(job, tx, Some(Ack)) == (AwaitDone, []) && Within(job, c)
  {
    assert SpillAt(c, i + 1) == SpillAt(c, i) + |c.lead(i)|;
  }

  lemma HostHearsAt(job: Upload, store: Store, s: State, heard: Reply, back: seq<Reply>, tx': Tx, sent: seq<Item>)
    requires s.back == [heard] + back && !s.tx.Exited? && Hear(job, s.tx, Some(heard)) == (tx', sent)
    ensures Apply(job, store, s, HostHears) == s.(tx := tx', fwd := s.fwd + sent, back := back)
  {
    assert s.back[1..] == back;
  }

  /** The host hears a byte of text that is next on the line, whatever follows. */
  lemma HearsText(job: Upload, store: Store, c: Course, s: State, i: nat, k: nat, rest: seq<Reply>)
    requires Speaks(job, c, i) && Counting(job, c, s.tx, i, k) && k < |c.lead(i)| && s.back == c.lead(i)[k..] + rest
    ensures var s' := Apply(job, store, s, HostHears);
            if SpillAt(c, i) + k + 1 > SPILL_CAP then s'.tx == Exited(3) && !Within(job, c)
            else s' == s.(tx := TxAt(job, c, i, k + 1), back := c.lead(i)[k + 1..] + rest)
                 && Counting(job, c, s'.tx, i, k + 1)
  {
    var lead := c.lead(i);
    Discards(job, c, s.tx, i, k);
    assert lead[k..] + rest == [lead[k]] + (lead[k + 1..] + rest);
    var tx' := if SpillAt(c, i) + k + 1 > SPILL_CAP then Exited(3) else TxAt(job, c, i, k + 1);
    HostHearsAt(job, store, s, lead[k], lead[k + 1..] + rest, tx', []);
    assert s.fwd + [] == s.fwd;
  }

  lemma SentHost(job: Upload, store: Store, c: Course, s: State, i: nat, k: nat)
    requires Speaks(job, c, i) && IsAt(job, c, s, Sent(i, k))
    ensures IsAt(job, c, Apply(job, store, s, HostHears), Next(job, c, Sent(i, k), HostHears))
  {
    if k < |c.lead(i)| {
      assert c.lead(i)[k..] + [] == c.lead(i)[k..] && c.lead(i)[k + 1..] + [] == c.lead(i)[k + 1..];
      HearsText(job, store, c, s, i, k, []);
    }
  }

  lemma AnsweredHost(job: Upload, store: Store, c: Course, s: State, i: nat, k: nat)
    requires Speaks(job, c, i) && IsAt(job, c, s, Answered(i, k))
    ensures IsAt(job, c, Apply(job, store, s, HostHears), Next(job, c, Answered(i, k), HostHears))
  {
    if k < |c.lead(i)| {
      HearsText(job, store, c, s, i, k, [Ack] + Behind(job, c, i));
    } else {
      AckHeard(job, store, c, s, i, k);
    }
  }

  lemma AckHeard(job: Upload, store: Store, c: Course, s: State, i: nat, k: nat)
    requires IsAt(job, c, s, Answered(i, k)) && k == |c.lead(i)|
    ensures IsAt(job, c, Apply(job, store, s, HostHears), if i < job.PacketCount() then Sent(i + 1, 0) else Last)
  {
    GoesOn(job, c, s.tx, i, k);
    var behind := Behind(job, c, i);
    assert s.back == [Ack] + behind;
    if i < job.PacketCount() {
      HostHearsAt(job, store, s, Ack, behind, TxAt(job, c, i + 1, 0), [C.ItemAt(job, i + 1)]);
      assert c.lead(i + 1)[0..] == behind;
      assert [] + [C.ItemAt(job, i + 1)] == [C.ItemAt(job, i + 1)];
    } else {
      HostHearsAt(job, store, s, Ack, behind, AwaitDone, []);
    }
  }

  lemma SentReceiver(job: Upload, store: Store, c: Course, s: State, i: nat, k: nat)
    requires AnswersAt(job, store, c, i) && IsAt(job, c, s, Sent(i, k))
    ensures IsAt(job, c, Apply(job, store, s, ReceiverHears), Answered(i, k))
  {
    var item := C.ItemAt(job, i);
    assert s.fwd == [item] + [];
    HearsFirst(job, store, s, item, [], Arrival(job, item), c.rx(i + 1), [Ack] + Behind(job, c, i));
  }

  lemma LastHost(job: Upload, store: Store, c: Course, s: State)
    requires IsAt(job, c, s, Last)
    ensures IsAt(job, c, Apply(job, store, s, HostHears), Over(0))
  {
    assert s.back == [DoneLine(|job.blob|)] + [];
    HostHearsAt(job, store, s, DoneLine(|job.blob|), [], Exited(0), []);
  }

  lemma OverStays(job: Upload, store: Store, s: State, l: Label)
    requires s.tx.Exited? && Ordinary(l)
    ensures Apply(job, store, s, l).tx == s.tx
  {
  }

  lemma NothingToHear(job: Upload, store: Store, s: State)
    requires s.fwd == []
    ensures Apply(job, store, s, ReceiverHears) == s
  {
  }

  lemma Moves(job: Upload, store: Store, c: Course, s: State, pos: Pos, l: Label)
    requires Proper(job, store, c) && IsAt(job, c, s, pos) && Ordinary(l)
    ensures IsAt(job, c, Apply(job, store, s, l), Next(job, c, pos, l))
  {
    if pos.Sent? || pos.Answered? { assert Speaks(job, c, pos.i) && AnswersAt(job, store, c, pos.i); }
    match pos
    case Sent(i, k) =>
      if l == HostHears { SentHost(job, store, c, s, i, k); } else { SentReceiver(job, store, c, s, i, k); }
    case Answered(i, k) =>
      if l == HostHears { AnsweredHost(job, store, c, s, i, k); } else { NothingToHear(job, store, s); }
    case Last => if l == HostHears { LastHost(job, store, c, s); } else { NothingToHear(job, store, s); }
    case Over(_) => OverStays(job, store, s, l);
  }

  lemma StartsSomewhere(job: Upload, c: Course)
    requires c.rx(0) == INITIAL && c.lead(0) == [ChrC]
    ensures IsAt(job, c, Start(), Sent(0, 0))
  {
    assert job.PacketCount() > 0 && SpillAt(c, 0) == 0;
  }

  lemma {:induction false} AlwaysSomewhere(job: Upload, store: Store, c: Course, labels: seq<Label>) returns (pos: Pos)
    requires Proper(job, store, c) && c.rx(0) == INITIAL && c.lead(0) == [ChrC] && NoLoss(labels)
    ensures IsAt(job, c, T.Run(job, store, labels), pos)
  {
    if labels == [] {
      pos := Sent(0, 0);
      StartsSomewhere(job, c);
    } else {
      var n := |labels| - 1;
      var before := AlwaysSomewhere(job, store, c, labels[..n]);
      assert Ordinary(labels[n]);
      Moves(job, store, c, T.Run(job, store, labels[..n]), before, labels[n]);
      pos := Next(job, c, before, labels[n]);
    }
  }

  // ---- every undisturbed upload ends ----

  /** The step to take next. */
  function Turn(c: Course, pos: Pos): Label {
    if pos.Sent? && pos.k == |c.lead(pos.i)| then ReceiverHears else HostHears
  }

  function ToGo(job: Upload, pos: Pos): nat {
    match pos
    case Sent(i, _) => if i <= job.PacketCount() then job.PacketCount() - i + 2 else 0
    case Answered(i, _) => if i <= job.PacketCount() then job.PacketCount() - i + 2 else 0
    case Last => 1
    case Over(_) => 0
  }

  function LeadToGo(c: Course, pos: Pos): nat {
    match pos
    case Sent(i, k) => if k <= |c.lead(i)| then |c.lead(i)| - k else 0
    case Answered(i, k) => if k <= |c.lead(i)| then |c.lead(i)| - k else 0
    case _ => 0
  }

  lemma TurnMoves(job: Upload, c: Course, pos: Pos)
    requires pos.Sent? || pos.Answered? ==> pos.i <= job.PacketCount() && pos.k <= |c.lead(pos.i)|
    requires !pos.Over?
    ensures var pos' := Next(job, c, pos, Turn(c, pos));
            || ToGo(job, pos') < ToGo(job, pos)
            || (ToGo(job, pos') == ToGo(job, pos) && LeadToGo(c, pos') < LeadToGo(c, pos))
            || (ToGo(job, pos') == ToGo(job, pos) && LeadToGo(c, pos') == LeadToGo(c, pos)
                && pos.Sent? && pos'.Answered?)
  {
  }

  lemma OneMoreTurn(job: Upload, store: Store, c: Course, labels: seq<Label>, pos: Pos) returns (labels': seq<Label>)
    requires Proper(job, store, c) && NoLoss(labels) && IsAt(job, c, T.Run(job, store, labels), pos)
    ensures NoLoss(labels') && IsAt(job, c, T.Run(job, store, labels'), Next(job, c, pos, Turn(c, pos)))
  {
    var l := Turn(c, pos);
    labels' := labels + [l];
    B.LongerRun(job, store, labels, l);
    Moves(job, store, c, T.Run(job, store, labels), pos, l);
  }

  lemma {:induction false} Ends(job: Upload, store: Store, c: Course, labels: seq<Label>, pos: Pos)
    returns (labels': seq<Label>)
    requires Proper(job, store, c) && NoLoss(labels) && IsAt(job, c, T.Run(job, store, labels), pos)
    ensures NoLoss(labels') && T.Run(job, store, labels').tx == Exited(ExitOf(job, c))
    decreases ToGo(job, pos), LeadToGo(c, pos), if pos.Sent? then 1 else 0
  {
    if pos.Over? {
      labels' := labels;
    } else {
      var longer := OneMoreTurn(job, store, c, labels, pos);
      TurnMoves(job, c, pos);
      labels' := Ends(job, store, c, longer, Next(job, c, pos, Turn(c, pos)));
    }
  }

  // ---- the course of a feasible upload ----

  /** The handshake byte comes before the first ACK, then always the text after the packet before. */
  function LeadOf(job: Upload): nat -> seq<Reply> {
    (i: nat) => if i == 0 then [ChrC] else if i <= job.PacketCount() then C.Tail(job, i - 1) else []
  }

  function RxOf(job: Upload): nat -> Rx {
    (i: nat) => if i <= job.PacketCount() + 1 then C.Before(job, i) else INITIAL
  }

  function CourseOf(job: Upload): Course {
    Course(LeadOf(job), RxOf(job))
  }

  lemma CourseAnswers(job: Upload, store: Store, i: nat)
    requires C.Feasible(job, store) && i <= job.PacketCount()
    ensures AnswersAt(job, store, CourseOf(job), i)
  {
    C.Answered(job, store, i);
  }

  lemma CourseIsProper(job: Upload, store: Store)
    requires C.Feasible(job, store)
    ensures Proper(job, store, CourseOf(job))
  {
    var c := CourseOf(job);
    C.WholeFile(job);
    forall i: nat | i <= job.PacketCount() ensures AnswersAt(job, store, c, i) && Speaks(job, c, i) {
      CourseAnswers(job, store, i);
    }
  }

  lemma CourseStarts(job: Upload)
    ensures CourseOf(job).rx(0) == INITIAL && CourseOf(job).lead(0) == [ChrC]
  {
  }

  // ---- its text, all told ----

  lemma PartLength(job: Upload, i: nat)
    requires 1 <= i < job.PacketCount()
    ensures |C.Part(job, i)| == (i - 1) * job.packetLen < |job.blob|
  {
    job.OffsetInFile(i);
  }

  /** How many packets make up 16 blocks. */
  function Per(len: nat): nat {
    if len == 128 then 64 else 8
  }

  lemma Passed(m: nat, len: nat, r: nat)
    requires (len == 128 || len == 1024) && r < len
    ensures (m * len + r) / P.EVERY == m / Per(len)
  {
    if len == 128 {
      assert m * len == m * 128;
    } else {
      assert m * len == m * 1024;
    }
  }

  lemma NextPassed(m: nat, len: nat)
    requires len == 128 || len == 1024
    ensures var per := Per(len);
            && m / per <= (m + 1) / per <= m / per + 1
            && ((m + 1) / per > m / per ==> (m + 1) * len == P.EVERY * ((m + 1) / per))
  {
    if len == 128 {
      assert (m + 1) * len == (m + 1) * 128;
    } else {
      assert (m + 1) * len == (m + 1) * 1024;
    }
  }

  /** The text after a packet brings the lines up to the next count. */
  lemma ReportLength(m: nat, len: nat, size: nat)
    requires len == 128 || len == 1024
    ensures LinesLength(m / Per(len), size) + |Report(m * len, (m + 1) * len, Some(size))|
              == LinesLength((m + 1) / Per(len), size)
  {
    Passed(m, len, 0);
    Passed(m + 1, len, 0);
    NextPassed(m, len);
    assert (m + 1) / Per(len) > m / Per(len) ==>
        |Report(m * len, (m + 1) * len, Some(size))| == LineAt(size)((m + 1) / Per(len));
  }

  lemma TailLength(job: Upload, i: nat)
    requires 1 <= i && i + 1 < job.PacketCount()
    ensures LinesLength((i - 1) / Per(job.packetLen), |job.blob|) + |C.Tail(job, i)|
              == LinesLength(i / Per(job.packetLen), |job.blob|)
  {
    TailIsReport(job, i);
    ReportLength(i - 1, job.packetLen, |job.blob|);
  }

  lemma TailIsReport(job: Upload, i: nat)
    requires 1 <= i && i + 1 < job.PacketCount()
    ensures C.Tail(job, i) == Report((i - 1) * job.packetLen, i * job.packetLen, Some(|job.blob|))
  {
    PartLength(job, i);
    PartLength(job, i + 1);
  }

  lemma {:induction false} SpillSoFar(job: Upload, i: nat)
    requires 1 <= i < job.PacketCount()
    ensures SpillAt(CourseOf(job), i + 1) == 1 + LinesLength((i - 1) / Per(job.packetLen), |job.blob|)
  {
    if i == 1 {
      SpillOfHeader(job);
      assert 0 / Per(job.packetLen) == 0;
    } else {
      var j := i - 1;
      SpillSoFar(job, j);
      TailLength(job, j);
      SpillStep(job, i);
    }
  }

  lemma SpillOfHeader(job: Upload)
    ensures job.PacketCount() >= 1 && SpillAt(CourseOf(job), 2) == 1
  {
    var c := CourseOf(job);
    assert SpillAt(c, 1) == SpillAt(c, 0) + |c.lead(0)|;
    assert SpillAt(c, 2) == SpillAt(c, 1) + |c.lead(1)|;
  }

  lemma SpillStep(job: Upload, i: nat)
    requires 1 <= i < job.PacketCount()
    ensures SpillAt(CourseOf(job), i + 1) == SpillAt(CourseOf(job), i) + |C.Tail(job, i - 1)|
  {
    var c := CourseOf(job);
    assert SpillAt(c, i + 1) == SpillAt(c, i) + |c.lead(i)|;
  }

  /** The last packet starts after as many multiples of 16 blocks as the file reaches. */
  lemma LastLine(size: nat, m: nat, len: nat)
    requires (len == 128 || len == 1024) && m * len < size <= m * len + len
    ensures m / Per(len) == Lines(size)
  {
    Passed(m, len, size - 1 - m * len);
  }

  lemma WholeSpill(job: Upload)
    ensures SpillAt(CourseOf(job), job.PacketCount()) == SpillOf(|job.blob|)
  {
    var n := job.PacketCount();
    LastPacket(job, n);
    SpillSoFar(job, n - 1);
    LastLine(|job.blob|, n - 2, job.packetLen);
  }

  lemma LastPacket(job: Upload, n: nat)
    requires n == job.PacketCount()
    ensures n >= 2 && (n - 2) * job.packetLen < |job.blob| <= (n - 2) * job.packetLen + job.packetLen
  {
    C.WholeFile(job);
    CeilBounds(|job.blob|, job.packetLen);
    job.OffsetInFile(n - 1);
    assert (n - 1) * job.packetLen == (n - 2) * job.packetLen + job.packetLen;
  }

  // ---- exit codes ----

  function ExitCode(job: Upload): nat {
    if |job.blob| <= LARGEST then 0 else 3
  }

  lemma ExitCodeIs(job: Upload)
    ensures ExitOf(job, CourseOf(job)) == ExitCode(job)
  {
    WholeSpill(job);
    SpillExact(|job.blob|);
  }

  /** However host and receiver take turns, the exit code is decided by the size of the file. */
  lemma ExitIsDecided(job: Upload, store: Store, labels: seq<Label>)
    requires C.Feasible(job, store) && NoLoss(labels)
    ensures var tx := T.Run(job, store, labels).tx; tx.Exited? ==> tx.code == ExitCode(job)
  {
    CourseIsProper(job, store);
    CourseStarts(job);
    var pos := AlwaysSomewhere(job, store, CourseOf(job), labels);
    ExitCodeIs(job);
  }

  /** Every feasible upload has an undisturbed run that ends, with that exit code. */
  lemma UploadEnds(job: Upload, store: Store) returns (labels: seq<Label>)
    requires C.Feasible(job, store)
    ensures NoLoss(labels) && T.Run(job, store, labels).tx == Exited(ExitCode(job))
  {
    var c := CourseOf(job);
    CourseIsProper(job, store);
    CourseStarts(job);
    StartsSomewhere(job, c);
    labels := Ends(job, store, c, [], Sent(0, 0));
    ExitCodeIs(job);
  }

  // ---- a header that does not fit ----

  /** The host is still at block 0, and nothing it may take for an ACK is on the line. */
  predicate Stuck(s: State) {
    && ((s.tx.Waiting? && s.tx.index == 0) || s.tx == Exited(3))
    && (forall i :: 0 <= i < |s.fwd| ==> s.fwd[i] == Pkt(0))
    && (forall i :: 0 <= i < |s.back| ==> s.back[i] != Ack)
    && (s.rx.phase.Handshake? || s.rx.phase.Packets? || s.rx.phase.Failed?)
  }

  lemma StaysStuck(job: Upload, store: Store, s: State, l: Label)
    requires |job.Body(0)| != Block0.HEADER_LEN && Stuck(s) && Ordinary(l)
    ensures Stuck(Apply(job, store, s, l))
  {
    if l == ReceiverHears && s.fwd != [] {
      assert Arrival(job, s.fwd[0]) == BadBody;
    }
  }

  lemma {:induction false} AlwaysStuck(job: Upload, store: Store, labels: seq<Label>)
    requires |job.Body(0)| != Block0.HEADER_LEN && NoLoss(labels)
    ensures Stuck(T.Run(job, store, labels))
  {
    if labels == [] {
    } else {
      var n := |labels| - 1;
      AlwaysStuck(job, store, labels[..n]);
      assert Ordinary(labels[n]);
      StaysStuck(job, store, T.Run(job, store, labels[..n]), labels[n]);
    }
  }

  // ---- exactly when an upload completes ----

  ghost predicate Completes(job: Upload, store: Store) {
    exists labels :: NoLoss(labels) && T.Run(job, store, labels).tx == Exited(0)
  }

  /**
   * An undisturbed upload can end with exit code 0 exactly when the header fits its packet, every block of the
   * file exists and can be written, and the file has at most 16,121,856 bytes.
   */
  lemma CompletesExactly(job: Upload, store: Store)
    ensures Completes(job, store) <==>
              |job.Body(0)| == Block0.HEADER_LEN && Room(store, |job.blob|) && |job.blob| <= LARGEST
  {
    if C.Feasible(job, store) {
      var labels := UploadEnds(job, store);
      if Completes(job, store) {
        var labels' :| NoLoss(labels') && T.Run(job, store, labels').tx == Exited(0);
        ExitIsDecided(job, store, labels');
      }
    } else if Completes(job, store) {
      var labels :| NoLoss(labels) && T.Run(job, store, labels).tx == Exited(0);
      U.ExitZeroNeedsRoom(job, store, labels);
      AlwaysStuck(job, store, labels);
    }
  }

  /** A file that fills the ramdisk fails, however undisturbed: its progress text is too much for the host. */
  lemma FullDiskFails(job: Upload, store: Store) returns (labels: seq<Label>)
    requires C.Feasible(job, store) && |job.blob| == Ramdisk.DISK_BYTES
    ensures NoLoss(labels) && T.Run(job, store, labels).tx == Exited(3)
    ensures !Completes(job, store)
  {
    labels := UploadEnds(job, store);
    CompletesExactly(job, store);
  }
}
