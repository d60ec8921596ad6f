/** From the host's bytes to the disk: an undisturbed upload, in any framing mode. */
module Delivery {
  import opened Bytes
  import C = Completion
  import opened Framing
  import opened Line
  import Ramdisk
  import opened Receiver
  import opened Sender
  import S = Session
  import opened Staging

  lemma StepOn(job: Upload, store: Store, i: nat)
    requires C.Feasible(job, store) && i <= job.PacketCount()
    ensures Step(store, C.Before(job, i), EventAt(job, i)).0 == C.Before(job, i + 1)
  {
    C.Answered(job, store, i);
  }

  /** The session over the first `i` events is the receiver before event `i`. */
  ghost predicate Handled(job: Upload, store: Store, i: nat)
    requires i <= job.PacketCount() + 1
  {
    Run(store, EventsBefore(job, i)).0 == C.Before(job, i)
  }

  lemma NothingHandled(job: Upload, store: Store)
    ensures Handled(job, store, 0)
  {
  }

  lemma OneMoreHandled(job: Upload, store: Store, i: nat)
    requires C.Feasible(job, store) && i <= job.PacketCount() && Handled(job, store, i)
    ensures Handled(job, store, i + 1)
  {
    var events, events' := EventsBefore(job, i), EventsBefore(job, i + 1);
    OneMoreEvent(job, events, i, EventAt(job, i));
    RunOneMore(store, events, events', EventAt(job, i));
    StepOn(job, store, i);
  }

  lemma RunOneMore(store: Store, events: seq<Event>, events': seq<Event>, ev: Event)
    requires events' == events + [ev]
    ensures Run(store, events').0 == Step(store, Run(store, events).0, ev).0
  {
    assert events'[..|events|] == events;
  }

  lemma {:induction false} AllHandled(job: Upload, store: Store, n: nat)
    requires C.Feasible(job, store) && n <= job.PacketCount() + 1
    ensures Handled(job, store, n)
  {
    if n == 0 {
      NothingHandled(job, store);
    } else {
      AllHandled(job, store, n - 1);
      OneMoreHandled(job, store, n - 1);
    }
  }

  /** The session over the events of an undisturbed upload finishes with exactly the file staged. */
  lemma UndisturbedRun(job: Upload, store: Store)
    requires C.Feasible(job, store)
    ensures var rx := Run(store, EventsBefore(job, job.PacketCount() + 1)).0;
            rx.phase == Finished(|job.blob|) && rx.staged == job.blob
  {
    AllHandled(job, store, job.PacketCount() + 1);
    C.WholeFile(job);
  }

  /**
   * The receiver on the host's bytes, in any framing mode: the session over what it reads finishes after the
   * EOT, and then the server's disk holds the file from block `start` on and is otherwise what it was.
   */
  method ReceiveFile(client: Client, start: nat, mode: Mode, input: seq<Byte>, ghost store: Store, ghost job: Upload)
    returns (total: nat)
    requires client.Valid() && client.Describes(store) && store.start == start
    requires C.Feasible(job, store) && input == FramesFrom(mode, job, 0)
    modifies client.staging, client.disk.va, client.disk.mem
    ensures total == |job.blob| && client.Valid()
    ensures start * Ramdisk.BLOCK_SIZE + |Padded(job.blob)| <= Ramdisk.DISK_BYTES
    ensures client.disk.Flat() == DiskAfter(old(client.disk.Flat()), start, job.blob)
  {
    var events, left := HearAll(mode, input, job);
    UndisturbedRun(job, store);
    total := S.Receive(client, start, store, events);
  }
}
