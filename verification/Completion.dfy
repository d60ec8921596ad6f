/** The receiver's side of an undisturbed upload: what it holds before each packet, and what it answers. */
module Completion {
  import opened Bytes
  import Block0
  import Progress
  import Ramdisk
  import opened Receiver
  import opened Sender
  import opened Transfer
  import T = TransferTheorems

  /** The header fits its packet, and the file the writable blocks. */
  ghost predicate Feasible(job: Upload, store: Store) {
    |job.Body(0)| == Block0.HEADER_LEN && Room(store, |job.blob|)
  }

  /** The ramdisk is smaller than ten digits can say. */
  lemma FeasibleIsAnnounced(job: Upload, store: Store)
    requires Feasible(job, store)
    ensures T.Announced(job)
  {
    var last: nat := |job.blob| - 1;
    assert BlockIndex(store, last) < Ramdisk.BLOCKS;
    Progress.TenTo(0);
    Progress.TenTo(5);
    assert Pow10(0) == 1;
  }

  // ---- staging succeeds ----

  function Fill(staged: seq<Byte>, body: seq<Byte>, limit: nat): seq<Byte>
    requires |staged| <= limit
  {
    staged + if |staged| + |body| <= limit then body else body[..limit - |staged|]
  }

  lemma {:induction false} StagesUpTo(store: Store, staged: seq<Byte>, body: seq<Byte>, limit: nat)
    requires |staged| <= limit && Room(store, limit)
    ensures StageAll(store, staged, body, Some(limit)) == (Fill(staged, body, limit), true)
    decreases |body|
  {
    if body == [] || |staged| == limit {
      assert Fill(staged, body, limit) == staged;
    } else {
      assert BlockIndex(store, |staged|) < Ramdisk.BLOCKS && store.writable(BlockIndex(store, |staged|));
      StagesUpTo(store, staged + [body[0]], body[1..], limit);
      assert Fill(staged + [body[0]], body[1..], limit) == Fill(staged, body, limit);
    }
  }

  /** The bytes staged when packet `i` is expected. */
  function Part(job: Upload, i: nat): seq<Byte>
    requires 1 <= i <= job.PacketCount()
  {
    var n := (i - 1) * job.packetLen;
    if n <= |job.blob| then job.blob[..n] else job.blob
  }

  lemma PartGrows(job: Upload, i: nat)
    requires 1 <= i < job.PacketCount()
    ensures |Part(job, i)| < |job.blob|
    ensures Fill(Part(job, i), job.Body(i), |job.blob|) == Part(job, i + 1)
    ensures |Part(job, i + 1)| == |job.blob| <==> i + 1 == job.PacketCount()
  {
    job.OffsetInFile(i);
    var off := (i - 1) * job.packetLen;
    assert i * job.packetLen == off + job.packetLen;
    if i + 1 < job.PacketCount() {
      job.OffsetInFile(i + 1);
    } else {
      CeilBounds(|job.blob|, job.packetLen);
    }
  }

  // ---- packet by packet ----

  /** The receiver when it expects packet `i`, or the EOT when there is none. */
  function Taking(job: Upload, i: nat): Rx
    requires 1 <= i <= job.PacketCount()
  {
    Rx(if i < job.PacketCount() then Packets else AwaitEot, i, Part(job, i), Some(|job.blob|), 0)
  }

  /** The progress text after packet `i`; there is none after block 0 and after the last packet. */
  function Tail(job: Upload, i: nat): (r: seq<Reply>)
    requires i < job.PacketCount()
    ensures forall k :: 0 <= k < |r| ==> r[k].Text?
  {
    if i == 0 || i + 1 == job.PacketCount() then [] else Report(|Part(job, i)|, |Part(job, i + 1)|, Some(|job.blob|))
  }

  lemma HeaderTaken(job: Upload, store: Store)
    requires Feasible(job, store)
    ensures job.PacketCount() >= 2
    ensures Step(store, INITIAL, Arrival(job, Pkt(0))) == (Taking(job, 1), [Ack])
  {
    CeilBounds(|job.blob|, job.packetLen);
    FeasibleIsAnnounced(job, store);
    T.HeaderArrives(job, store);
    assert Part(job, 1) == [];
  }

  lemma PartStaged(job: Upload, store: Store, i: nat)
    requires Feasible(job, store) && 1 <= i < job.PacketCount()
    ensures StageAll(store, Part(job, i), job.Body(i), Some(|job.blob|)) == (Part(job, i + 1), true)
    ensures |Part(job, i + 1)| >= |job.blob| <==> i + 1 == job.PacketCount()
  {
    PartGrows(job, i);
    StagesUpTo(store, Part(job, i), job.Body(i), |job.blob|);
  }

  /** A packet with the expected number whose body could be staged. */
  lemma DataTaken(store: Store, rx: Rx, seqNo: nat, body: seq<Byte>, staged: seq<Byte>, limit: nat)
    requires rx.phase.Packets? && rx.ysize == Some(limit) && seqNo == rx.expected % 256
    requires StageAll(store, rx.staged, body, Some(limit)) == (staged, true)
    ensures Step(store, rx, Packet(seqNo, body))
              == (Rx(if |staged| >= limit then AwaitEot else Packets, rx.expected + 1, staged, Some(limit),
                     if |staged| >= limit then rx.retries else 0),
                  [Ack] + if |staged| >= limit then [] else Report(|rx.staged|, |staged|, Some(limit)))
  {
    assert [Ack] + [] == [Ack];
  }

  lemma PacketTaken(job: Upload, store: Store, i: nat)
    requires Feasible(job, store) && 1 <= i < job.PacketCount()
    ensures Step(store, Taking(job, i), Packet(i % 256, job.Body(i))) == (Taking(job, i + 1), [Ack] + Tail(job, i))
  {
    PartStaged(job, store, i);
    DataTaken(store, Taking(job, i), i % 256, job.Body(i), Part(job, i + 1), |job.blob|);
    TailIs(job, i);
  }

  lemma TailIs(job: Upload, i: nat)
    requires 1 <= i < job.PacketCount()
    ensures Tail(job, i) == if i + 1 == job.PacketCount() then []
                            else Report(|Part(job, i)|, |Part(job, i + 1)|, Some(|job.blob|))
  {
  }

  lemma WholeFile(job: Upload)
    ensures job.PacketCount() >= 2 && Part(job, job.PacketCount()) == job.blob
  {
    CeilBounds(|job.blob|, job.packetLen);
  }

  lemma FlushSucceeds(job: Upload, store: Store)
    requires Feasible(job, store)
    ensures job.PacketCount() >= 2
    ensures var n := |job.blob|;
            Step(store, Taking(job, job.PacketCount()), Eot)
              == (Taking(job, job.PacketCount()).(phase := Finished(n)), [Ack, DoneLine(n)])
  {
    var n := |job.blob|;
    WholeFile(job);
    assert n % Ramdisk.BLOCK_SIZE != 0 ==> (n - 1) / Ramdisk.BLOCK_SIZE == n / Ramdisk.BLOCK_SIZE;
    var last: nat := n - 1;
    assert store.writable(BlockIndex(store, last));
    assert [Ack] + [DoneLine(n)] == [Ack, DoneLine(n)];
  }

  /** The receiver before item `i` of an undisturbed upload: block 0, the data packets, the EOT. */
  function Before(job: Upload, i: nat): Rx
    requires i <= job.PacketCount() + 1
  {
    if i == 0 then INITIAL
    else if i <= job.PacketCount() then Taking(job, i)
    else Taking(job, job.PacketCount()).(phase := Finished(|job.blob|))
  }

  function ItemAt(job: Upload, i: nat): Item {
    if i < job.PacketCount() then Pkt(i) else EotItem
  }

  /** What comes back for item `i` after its ACK. */
  function After(job: Upload, i: nat): seq<Reply>
    requires i <= job.PacketCount()
  {
    if i < job.PacketCount() then Tail(job, i) else [DoneLine(|job.blob|)]
  }

  lemma Answered(job: Upload, store: Store, i: nat)
    requires Feasible(job, store) && i <= job.PacketCount()
    ensures Step(store, Before(job, i), Arrival(job, ItemAt(job, i))) == (Before(job, i + 1), [Ack] + After(job, i))
  {
    if i == 0 {
      HeaderTaken(job, store);
      assert [Ack] + [] == [Ack];
    } else if i < job.PacketCount() {
      PacketTaken(job, store, i);
    } else {
      FlushSucceeds(job, store);
      assert [Ack] + [DoneLine(|job.blob|)] == [Ack, DoneLine(|job.blob|)];
    }
  }
}
