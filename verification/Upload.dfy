/** The upload end to end: from the exit code of the host to the bytes on the ramdisk. */
module Upload {
  import opened Bytes
  import Ramdisk
  import Receiver
  import opened Sender
  import opened Staging
  import S = Session
  import T = Transfer
  import TT = TransferTheorems

  /** The event, if any, that the receiver handles in one step of a run. */
  function HeardIn(job: Upload, s: T.State, l: T.Label): seq<Receiver.Event> {
    match l
    case ReceiverHears => if s.fwd == [] then [] else [T.Arrival(job, s.fwd[0])]
    case ReceiverQuiet => [Receiver.Quiet]
    case ReceiverCap => [Receiver.CapReached]
    case _ => []
  }

  /** The events the receiver handled during a run, in order. */
  function Heard(job: Upload, store: Receiver.Store, labels: seq<T.Label>): seq<Receiver.Event> {
    if labels == [] then []
    else
      var n := |labels| - 1;
      Heard(job, store, labels[..n]) + HeardIn(job, TT.Run(job, store, labels[..n]), labels[n])
  }

  lemma HeardStep(job: Upload, store: Receiver.Store, s: T.State, l: T.Label)
    ensures var heard := HeardIn(job, s, l);
            T.Apply(job, store, s, l).rx == if heard == [] then s.rx else Receiver.Step(store, s.rx, heard[0]).0
  {
  }

  /** The receiver of a run is the receive session over the events it heard. */
  lemma {:induction false} ReceiverOfRun(job: Upload, store: Receiver.Store, labels: seq<T.Label>)
    ensures TT.Run(job, store, labels).rx == Receiver.Run(store, Heard(job, store, labels)).0
  {
    if labels == [] {
    } else {
      var n := |labels| - 1;
      ReceiverOfRun(job, store, labels[..n]);
      var s := TT.Run(job, store, labels[..n]);
      HeardStep(job, store, s, labels[n]);
      var before := Heard(job, store, labels[..n]);
      var heard := HeardIn(job, s, labels[n]);
      if heard == [] {
        assert before + heard == before;
      } else {
        assert (before + heard)[..|before|] == before;
      }
    }
  }

  /**
   * If the host exits with 0, then the session over what the receiver heard has finished, and the
   * disk it leaves holds the file from block `start` on: any file that fits, any name, any losses,
   * noise and stale ACKs on the line, any write failures elsewhere. Bytes outside the blocks of the
   * file are what they were.
   */
  lemma ExitZeroMeansFileOnDisk(job: Upload, store: Receiver.Store, labels: seq<T.Label>, disk0: seq<Byte>)
    requires |disk0| == Ramdisk.DISK_BYTES
    requires store.start < Ramdisk.BLOCKS && |job.blob| <= (Ramdisk.BLOCKS - store.start) * Ramdisk.BLOCK_SIZE
    ensures TT.Run(job, store, labels).tx == Exited(0) ==>
              var rx := Receiver.Run(store, Heard(job, store, labels)).0;
              && rx.phase == Receiver.Finished(|job.blob|)
              && store.start * Ramdisk.BLOCK_SIZE + |Padded(rx.staged)| <= |disk0|
              && var d := DiskAfter(disk0, store.start, rx.staged);
                 var pos := store.start * Ramdisk.BLOCK_SIZE;
                 && d[pos..pos + |job.blob|] == job.blob
                 && forall i :: 0 <= i < |d| && !(pos <= i < pos + |Padded(job.blob)|) ==> d[i] == disk0[i]
  {
    if TT.Run(job, store, labels).tx == Exited(0) {
      TT.ExitZeroStagedFile(job, store, labels);
      ReceiverOfRun(job, store, labels);
      PaddedFits(job.blob, store.start);
      FileOnDisk(disk0, store.start, job.blob);
    }
  }

  /** Exit code 0 also means that every block of the file exists and could be written. */
  lemma ExitZeroNeedsRoom(job: Upload, store: Receiver.Store, labels: seq<T.Label>)
    ensures TT.Run(job, store, labels).tx == Exited(0) ==> Receiver.Room(store, |job.blob|)
  {
    if TT.Run(job, store, labels).tx == Exited(0) {
      TT.ExitZeroStagedFile(job, store, labels);
      ReceiverOfRun(job, store, labels);
      Receiver.RunStores(store, Heard(job, store, labels));
    }
  }

  lemma FileOnDisk(disk0: seq<Byte>, start: nat, data: seq<Byte>)
    requires |disk0| == Ramdisk.DISK_BYTES && start * Ramdisk.BLOCK_SIZE + |Padded(data)| <= |disk0|
    ensures var d := DiskAfter(disk0, start, data);
            var pos := start * Ramdisk.BLOCK_SIZE;
            && d[pos..pos + |data|] == data
            && forall i :: 0 <= i < |d| && !(pos <= i < pos + |Padded(data)|) ==> d[i] == disk0[i]
  {
    DiskHolds(disk0, start * Ramdisk.BLOCK_SIZE, Padded(data), data);
  }

  lemma PaddedFits(data: seq<Byte>, start: nat)
    requires start < Ramdisk.BLOCKS && |data| <= (Ramdisk.BLOCKS - start) * Ramdisk.BLOCK_SIZE
    ensures start * Ramdisk.BLOCK_SIZE + |Padded(data)| <= Ramdisk.DISK_BYTES
  {
    var k := |Padded(data)| / Ramdisk.BLOCK_SIZE;
    assert |Padded(data)| == k * Ramdisk.BLOCK_SIZE;
    assert k <= Ramdisk.BLOCKS - start;
  }

  /**
   * The receive session on the ramdisk itself, over the events of any run of the upload: if the host exits
   * with 0, the server's disk holds the file from block `start` on and is otherwise what it was.
   */
  method UploadToDisk(client: Client, start: nat, events: seq<Receiver.Event>,
                      ghost job: Upload, ghost store: Receiver.Store, ghost labels: seq<T.Label>)
    requires client.Valid() && client.Describes(store) && store.start == start
    requires |job.blob| <= (Ramdisk.BLOCKS - start) * Ramdisk.BLOCK_SIZE
    requires events == Heard(job, store, labels)
    modifies client.staging, client.disk.va, client.disk.mem
    ensures TT.Run(job, store, labels).tx == Exited(0) ==>
              && client.Valid()
              && var d := client.disk.Flat();
                 var pos := start * Ramdisk.BLOCK_SIZE;
                 && pos + |Padded(job.blob)| <= |d|
                 && d[pos..pos + |job.blob|] == job.blob
                 && forall i :: 0 <= i < |d| && !(pos <= i < pos + |Padded(job.blob)|) ==>
                     d[i] == old(client.disk.Flat())[i]
  {
    ghost var disk0 := client.disk.Flat();
    var session := new S.Session(client, start, store);
    var _ := session.RxRun(events);
    ExitZeroMeansFileOnDisk(job, store, labels, disk0);
    if TT.Run(job, store, labels).tx == Exited(0) {
      TT.ExitZeroStagedFile(job, store, labels);
      ReceiverOfRun(job, store, labels);
    }
  }
}
