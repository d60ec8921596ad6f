/** The host side of the upload (`send_packets` and the byte-count check in `main`). */
module Sender {
  import opened Bytes
  import Block0
  import opened Receiver

  const MAX_ATTEMPTS := 11
  const EOT_SENDS := 3
  const EOT_POLLS := 64
  const SPILL_CAP := 65536
  const SUB: Byte := 0x1A

  /** One upload: the file, the data packet size and the file name sent in block 0. */
  datatype Job = Job(blob: seq<Byte>, packetLen: nat, name: seq<Byte>) {
    /** `main` refuses an empty file, and a file name never holds a NUL. */
    ghost predicate Valid() {
      |blob| > 0 && (packetLen == 128 || packetLen == 1024) && Block0.NUL !in name
    }

    /** Block 0 and the data packets: packet `i` carries the file from `(i - 1) * packetLen` on. */
    function PacketCount(): (n: nat)
      requires packetLen > 0
    {
      1 + (|blob| + packetLen - 1) / packetLen
    }

    function Body(i: nat): (b: seq<Byte>)
      requires packetLen > 0 && i < PacketCount()
      ensures i > 0 ==> |b| == packetLen
    {
      if i == 0 then Block0.Header(name, |blob|)
      else
        var off := (i - 1) * packetLen;
        OffsetInFile(i);
        var chunk := if off + packetLen <= |blob| then blob[off..off + packetLen] else blob[off..];
        chunk + seq(packetLen - |chunk|, _ => SUB)
    }

    lemma OffsetInFile(i: nat)
      requires packetLen > 0 && 1 <= i < PacketCount()
      ensures 0 <= (i - 1) * packetLen < |blob|
    {
      QuotientBelow(i - 1, |blob|, packetLen);
    }
  }

  /** A data packet holds its piece of the file, byte for byte, and the last one is filled up with 0x1A. */
  lemma BodyLaw(job: Job, i: nat, j: nat)
    requires job.packetLen > 0 && 1 <= i < job.PacketCount() && j < job.packetLen
    ensures var at := (i - 1) * job.packetLen + j;
            job.Body(i)[j] == if at < |job.blob| then job.blob[at] else 0x1A
  {
    job.OffsetInFile(i);
  }

  /** Fewer than `n / d` rounded up whole pieces of size `d` end before `n`. */
  lemma QuotientBelow(k: nat, n: nat, d: nat)
    requires d > 0 && k < (n + d - 1) / d
    ensures k * d < n
  {
    var q := (n + d - 1) / d;
    var r := (n + d - 1) % d;
    assert q * d + r == n + d - 1;
    MulMonotone(k, q - 1, d);
    assert (q - 1) * d == q * d - d;
  }

  lemma {:induction false} MulMonotone(a: nat, b: nat, d: nat)
    requires a <= b
    ensures a * d <= b * d
  {
    assert b * d == a * d + (b - a) * d;
  }

  type Upload = job: Job | job.Valid() witness Job([0], 128, [])

  /** What the host puts on the line, one item per packet or control byte. */
  datatype Item = Pkt(index: nat) | EotItem | CanItem | StrayItem | TornItem

  datatype Tx =
    | Waiting(index: nat, attempt: nat, spill: nat)
    | WaitingEot(sends: nat, polls: nat, spill: nat)
    | AwaitDone
    | Exited(code: nat)

  /** Packet `index` did not get through: send it again, up to eleven times. */
  function Resend(tx: Tx): (Tx, seq<Item>)
    requires tx.Waiting?
  {
    if tx.attempt < MAX_ATTEMPTS then (tx.(attempt := tx.attempt + 1), [Pkt(tx.index)]) else (Exited(3), [])
  }

  function ResendEot(tx: Tx): (Tx, seq<Item>)
    requires tx.WaitingEot?
  {
    if tx.sends < EOT_SENDS then (WaitingEot(tx.sends + 1, 0, tx.spill), [EotItem]) else (Exited(3), [])
  }

  function Advance(job: Job, tx: Tx): (Tx, seq<Item>)
    requires job.packetLen > 0 && tx.Waiting?
  {
    if tx.index + 1 < job.PacketCount() then (Waiting(tx.index + 1, 1, tx.spill), [Pkt(tx.index + 1)])
    else (WaitingEot(1, 0, tx.spill), [EotItem])
  }

  /** One byte heard by the host, or a quiet window (`None`). */
  function Hear(job: Job, tx: Tx, heard: Option<Reply>): (Tx, seq<Item>)
    requires job.packetLen > 0
  {
    match tx
    case Waiting(_, _, spill) =>
      (match heard
       case None => Resend(tx)
       case Some(Ack) => Advance(job, tx)
       case Some(Can) => (Exited(3), [])
       case Some(Nak) => Resend(tx)
       case Some(_) => if spill + 1 > SPILL_CAP then (Exited(3), [])
           else (Waiting(tx.index, tx.attempt, spill + 1), []))
    case WaitingEot(_, polls, spill) =>
      (match heard
       case None => ResendEot(tx)
       case Some(Ack) => (AwaitDone, [])
       case Some(Can) => (Exited(3), [])
       case Some(Nak) => ResendEot(tx)
       case Some(_) =>
         if spill + 1 > SPILL_CAP then (Exited(3), [])
         else if polls + 1 < EOT_POLLS then (WaitingEot(tx.sends, polls + 1, spill + 1), [])
         else ResendEot(WaitingEot(tx.sends, polls, spill + 1)))
    case AwaitDone =>
      (match heard
       case None => (Exited(4), [])
       case Some(DoneLine(n)) => (Exited(if n == |job.blob| then 0 else 2), [])
       case Some(Text(newline)) => (if newline then Exited(2) else tx, [])
       case Some(_) => (tx, []))
    case Exited(_) => (tx, [])
  }

  // ---- what each answer does ----

  /**
   * While a packet is out: an ACK sends the next packet, or the EOT after the last; a NAK or silence sends the packet
   * again, eleven times in all, and then gives up with 3; a CAN gives up; any other byte is counted, up to 65536.
   */
  lemma PacketAnswers(job: Upload, i: nat, attempt: nat, spill: nat)
    requires i < job.PacketCount() && 1 <= attempt
    ensures var tx := Waiting(i, attempt, spill);
            && Hear(job, tx, Some(Ack)) == (if i + 1 < job.PacketCount() then (Waiting(i + 1, 1, spill), [Pkt(i + 1)])
                                            else (WaitingEot(1, 0, spill), [EotItem]))
            && Hear(job, tx, Some(Nak)) == (if attempt < 11 then (Waiting(i, attempt + 1, spill), [Pkt(i)])
                                            else (Exited(3), []))
            && Hear(job, tx, None) == Hear(job, tx, Some(Nak))
            && Hear(job, tx, Some(Can)) == (Exited(3), [])
            && forall r: Reply :: r != Ack && r != Nak && r != Can ==>
                 Hear(job, tx, Some(r)) == (if spill < 65536 then Waiting(i, attempt, spill + 1) else Exited(3), [])
  {
  }

  /**
   * While the EOT is out: an ACK ends the transfer; a NAK, silence or 64 other bytes send it again, three times in all;
   * a CAN gives up.
   */
  lemma EotAnswers(job: Upload, sends: nat, polls: nat, spill: nat)
    requires 1 <= sends <= 3 && polls < 64
    ensures var tx := WaitingEot(sends, polls, spill);
            && Hear(job, tx, Some(Ack)) == (AwaitDone, []) && Hear(job, tx, Some(Can)) == (Exited(3), [])
            && Hear(job, tx, Some(Nak)) == (if sends < 3 then (WaitingEot(sends + 1, 0, spill), [EotItem])
                                            else (Exited(3), []))
            && Hear(job, tx, None) == Hear(job, tx, Some(Nak))
            && forall r: Reply :: r != Ack && r != Nak && r != Can ==>
                 Hear(job, tx, Some(r)) == (if spill >= 65536 then (Exited(3), [])
                                            else if polls < 63 then (WaitingEot(sends, polls + 1, spill + 1), [])
                                            else if sends < 3 then (WaitingEot(sends + 1, 0, spill + 1), [EotItem])
                                            else (Exited(3), []))
  {
  }

  /** The final report decides between 0 and 2; silence gives 4, and a line without a report gives 2. */
  lemma ReportAnswers(job: Upload, n: nat)
    ensures Hear(job, AwaitDone, Some(DoneLine(n))) == (Exited(if n == |job.blob| then 0 else 2), [])
    ensures Hear(job, AwaitDone, None) == (Exited(4), [])
    ensures Hear(job, AwaitDone, Some(Text(true))) == (Exited(2), [])
    ensures Hear(job, AwaitDone, Some(Text(false))) == (AwaitDone, [])
  {
  }

  // ---- the packets carry the file ----

  /** The bodies of packets `1 .. k` in order. */
  function Stream(job: Job, k: nat): seq<Byte>
    requires job.packetLen > 0 && k < job.PacketCount()
  {
    if k == 0 then [] else Stream(job, k - 1) + job.Body(k)
  }

  /** The file followed by the padding of its last packet. */
  function PaddedFile(job: Job): (p: seq<Byte>)
    requires job.packetLen > 0
    ensures |p| == (job.PacketCount() - 1) * job.packetLen
    ensures job.blob <= p
  {
    var k := job.PacketCount() - 1;
    assert k * job.packetLen >= |job.blob| by { CeilBounds(|job.blob|, job.packetLen); }
    job.blob + seq(k * job.packetLen - |job.blob|, _ => SUB)
  }

  lemma CeilBounds(size: nat, n: nat)
    requires n > 0
    ensures var q := (size + n - 1) / n; size <= q * n < size + n
  {
  }

  lemma BodyIsSlice(job: Job, i: nat)
    requires job.Valid() && 1 <= i < job.PacketCount()
    ensures 0 <= (i - 1) * job.packetLen <= i * job.packetLen <= |PaddedFile(job)|
    ensures job.Body(i) == PaddedFile(job)[(i - 1) * job.packetLen..i * job.packetLen]
  {
    job.OffsetInFile(i);
    var q := job.PacketCount() - 1;
    assert i * job.packetLen <= q * job.packetLen;
    assert i * job.packetLen == (i - 1) * job.packetLen + job.packetLen;
  }

  /** The data packets in order are the file, with padding only after its end. */
  lemma {:induction false} StreamIsFile(job: Job, k: nat)
    requires job.Valid() && k < job.PacketCount()
    ensures k * job.packetLen <= |PaddedFile(job)|
    ensures Stream(job, k) == PaddedFile(job)[..k * job.packetLen]
  {
    if k == 0 {
    } else {
      StreamIsFile(job, k - 1);
      BodyIsSlice(job, k);
      JoinSlices(PaddedFile(job), (k - 1) * job.packetLen, k * job.packetLen);
    }
  }

  lemma JoinSlices<T>(s: seq<T>, m: nat, n: nat)
    requires m <= n <= |s|
    ensures s[..m] + s[m..n] == s[..n]
  {
  }
}
