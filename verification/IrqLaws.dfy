/** What each critical section of the delivery table does, read off the slot, and what waits get over whole runs. */
module IrqLaws {
  import opened Bytes
  import opened IrqTable
  import opened IrqRuns

  /** Only slot `i` and the given parts of the world may differ. */
  predicate OnlySlot(w: World, w': World, i: nat) {
    && |w'.slots| == |w.slots| && w'.pic == w.pic && w'.open == w.open && w'.log == w.log
    && forall j :: 0 <= j < |w.slots| && j != i ==> w'.slots[j] == w.slots[j]
  }

  // ---- the wait call ----

  /** The slot is for waits on this vector, by this capability and for this task. */
  predicate IsOwn(s: Slot, owner: nat, vector: nat, t: nat) {
    s.occupied && s.mode == Wait && s.vector == vector && s.owner == Some(owner) && s.recipient == Some(t)
  }

  /** It is armed as well. */
  predicate WaitsOn(s: Slot, owner: nat, vector: nat, t: nat) {
    IsOwn(s, owner, vector, t) && s.armed
  }

  /**
   * Entering the wait call: with the right slot armed, a pending interrupt is taken and the count goes down by one;
   * without one the task is registered with its generation and blocks. Everything else is refused and changes nothing.
   */
  lemma EnterLaw(w: World, i: nat, owner: nat, vector: nat, t: nat)
    requires i < |w.slots| && t in w.tasks
    ensures var (w', answer) := EnterWait(w, i, owner, vector, t);
            var s := w.slots[i];
            && (WaitsOn(s, owner, vector, t) && s.pending > 0 ==>
                  && answer == Took && OnlySlot(w, w', i) && w'.tasks == w.tasks
                  && w'.slots[i] == s.(pending := s.pending - 1))
            && (WaitsOn(s, owner, vector, t) && s.pending == 0 ==>
                  && answer == Sleeps && OnlySlot(w, w', i)
                  && w'.slots[i] == s.(waiter := Some(t), waiterGen := w.tasks[t].gen)
                  && w'.tasks == w.tasks[t := Task(Blocked, w.tasks[t].gen)])
            && (!WaitsOn(s, owner, vector, t) ==> answer == Refused && w' == w)
  {
  }

  /**
   * Coming back from sleep: with the right slot still armed, a pending interrupt is taken; in any slot of the caller's
   * own its registration is removed. A slot that has passed to another capability, vector or task is left alone.
   */
  lemma ResumeLaw(w: World, i: nat, owner: nat, vector: nat, t: nat)
    requires i < |w.slots|
    ensures var (w', took) := ResumeWait(w, i, owner, vector, t);
            var s, s' := w.slots[i], w'.slots[i];
            && OnlySlot(w, w', i) && w'.tasks == w.tasks
            && (took <==> WaitsOn(s, owner, vector, t) && s.pending > 0)
            && s'.pending == (if took then s.pending - 1 else s.pending)
            && (IsOwn(s, owner, vector, t) ==>
                  && s'.waiter != Some(t)
                  && (s.waiter != Some(t) ==> s'.waiter == s.waiter && s'.waiterGen == s.waiterGen)
                  && s' == s.(pending := s'.pending, waiter := s'.waiter, waiterGen := s'.waiterGen))
            && (!IsOwn(s, owner, vector, t) ==> w' == w)
  {
  }

  /** The roll-back removes the caller's own registration and lets the task run on. */
  lemma RollBackLaw(w: World, i: nat, t: nat)
    requires i < |w.slots| && t in w.tasks
    ensures var w' := RollBackWait(w, i, t);
            var s := w.slots[i];
            && OnlySlot(w, w', i) && w'.tasks == w.tasks[t := Task(Running, w.tasks[t].gen)]
            && w'.slots[i] == if s.waiter == Some(t) then s.(waiter := None, waiterGen := 0) else s
  {
  }

  // ---- tasks ----

  /** A registration is good while its task is ready, running or blocked in the registered generation. */
  lemma AliveLaw(tasks: map<nat, Task>, t: Option<nat>, gen: nat)
    ensures Alive(tasks, t, gen) <==> && t.Some? && t.value in tasks && tasks[t.value].gen == gen
                                      && tasks[t.value].state in {Ready, Running, Blocked}
  {
  }

  /**
   * The life of a task: it dies in one of two states and keeps its generation; its memory is used again only when it is
   * dead and no slot refers to it, for a ready task of the next generation; and a blocked task may be woken elsewhere.
   */
  lemma TaskLaw(s: Sys, t: nat, state: TaskState)
    ensures t in s.w.tasks && (state == Terminated || state == Reaped) ==>
              Apply(s, Dies(t, state)) == s.(w := s.w.(tasks := s.w.tasks[t := Task(state, s.w.tasks[t].gen)]))
    ensures t in s.w.tasks && s.w.tasks[t].state in {Ready, Running, Blocked} ==> Apply(s, Recycles(t)) == s
    ensures (exists i :: 0 <= i < |s.w.slots| && (s.w.slots[i].recipient == Some(t) || s.w.slots[i].waiter == Some(t)))
              ==> Apply(s, Recycles(t)) == s
    ensures Apply(s, Recycles(t)) == s
            || Apply(s, Recycles(t)) == s.(made := s.made + 1,
                                           w := s.w.(tasks := s.w.tasks[t := Task(Ready, (s.made + 1) % 4294967296)]))
    ensures t in s.w.tasks && s.w.tasks[t].state == Blocked ==>
              Apply(s, WokenElsewhere(t)) == s.(w := s.w.(tasks := s.w.tasks[t := Task(Ready, s.w.tasks[t].gen)]))
  {
  }

  // ---- the other sections ----

  /** The vectors that may be claimed: 33 to 254 without 128 and 224; up to 47 they are lines of the old controller. */
  lemma ClaimLaw(w: World, vector: nat, threaded: bool)
    ensures var (w', k) := Claim(w, vector, threaded);
            && (k < |w.slots| ==>
                  && 33 <= vector <= 254 && vector != 128 && vector != 224 && !threaded
                  && !w.slots[k].occupied && (forall j :: 0 <= j < k ==> w.slots[j].occupied)
                  && (forall j :: 0 <= j < |w.slots| ==> !(w.slots[j].occupied && w.slots[j].vector == vector))
                  && OnlySlot(w, w', k) && w'.tasks == w.tasks
                  && w'.slots[k].occupied && !w'.slots[k].armed && w'.slots[k].vector == vector
                  && w'.slots[k].kind == (if vector <= 47 then Pic else Msix)
                  && w'.slots[k].owner.None? && w'.slots[k].recipient.None? && w'.slots[k].waiter.None?
                  && w'.slots[k].pending == 0 && w'.slots[k].mode == Wait && w'.slots[k].lineWasMasked)
            && (k >= |w.slots| ==> w' == w)
            && (k < |w.slots| <==>
                  && 33 <= vector <= 254 && vector != 128 && vector != 224 && !threaded
                  && (exists j :: 0 <= j < |w.slots| && !w.slots[j].occupied)
                  && (forall j :: 0 <= j < |w.slots| ==> !(w.slots[j].occupied && w.slots[j].vector == vector)))
  {
    var k := FirstFree(w.slots, 0);
    assert forall j :: 0 <= j < |w.slots| ==>
                         (Holds(w.slots[j], vector) <==> w.slots[j].occupied && w.slots[j].vector == vector);
  }

  /** Arming: only the owner, only its vector, only an unarmed slot, only modes 0 and 1. */
  lemma ArmLaw(w: World, i: int, owner: nat, vector: nat, t: nat, mode: nat)
    requires t in w.tasks && |w.pic| == PIC_LINES
    ensures var (w', ok) := Arm(w, i, owner, vector, t, mode);
            && (ok <==> && 0 <= i < |w.slots| && w.slots[i].occupied && !w.slots[i].armed
                        && w.slots[i].owner == Some(owner) && w.slots[i].vector == vector && mode <= 1)
            && (!ok ==> w' == w)
            && (ok ==>
                  var s, s' := w.slots[i], w'.slots[i];
                  && |w'.slots| == |w.slots| && (forall j :: 0 <= j < |w.slots| && j != i ==> w'.slots[j] == w.slots[j])
                  && w'.tasks == w.tasks && w'.log == w.log
                  && s'.armed && s'.recipient == Some(t) && s'.recipientGen == w.tasks[t].gen
                  && s'.mode == (if mode == 0 then Wait else Notify)
                  && s' == s.(armed := true, recipient := s'.recipient, recipientGen := s'.recipientGen,
                              mode := s'.mode, lineWasMasked := s'.lineWasMasked)
                  && (s.kind == Pic ==> w'.open == w.open)
                  && (s.kind == Pic && 32 <= vector < 48 ==>
                        s'.lineWasMasked == w.pic[vector - 32] && w'.pic == w.pic[vector - 32 := false])
                  && (s.kind == Msix ==> w'.pic == w.pic && w'.open == w.open + {owner}))
  {
  }

  /** What waking or signalling adds to the log, and to whom. */
  predicate Told(w: World, w': World, e: Effect) {
    Alive(w.tasks, Some(e.task), e.gen) && w'.log == w.log + [e]
  }

  /**
   * Releasing: refused, with nothing changed, unless the index names an occupied slot of the caller's (any occupied one
   * for a caller without an owner). Otherwise the slot is given back. The recipient of a NOTIFY slot is signalled with
   * value 0, the waiter of a WAIT slot is made ready, each only if it is alive in the registered generation.
   */
  lemma ReleaseLaw(w: World, i: int, owner: Option<nat>)
    ensures var (w', ok) := Release(w, i, owner);
            && (ok <==> 0 <= i < |w.slots| && w.slots[i].occupied && (owner.None? || owner == w.slots[i].owner))
            && (!ok ==> w' == w)
            && (ok ==>
                  var s := w.slots[i];
                  && |w'.slots| == |w.slots| && (forall j :: 0 <= j < |w.slots| && j != i ==> w'.slots[j] == w.slots[j])
                  && !w'.slots[i].occupied && !w'.slots[i].armed && w'.slots[i].owner.None?
                  && w'.slots[i].recipient.None? && w'.slots[i].waiter.None? && w'.slots[i].pending == 0
                  && w'.slots[i].recipientGen == w'.slots[i].waiterGen == 0 && w'.slots[i].mode == Wait
                  && (s.mode == Notify && Alive(w.tasks, s.recipient, s.recipientGen) ==>
                        w'.tasks == w.tasks && Told(w, w', Notified(s.recipient.value, s.recipientGen, 0)))
                  && (s.mode == Wait && Alive(w.tasks, s.waiter, s.waiterGen) ==>
                        && Told(w, w', MadeReady(s.waiter.value, s.waiterGen))
                        && w'.tasks == w.tasks[s.waiter.value := Task(Ready, s.waiterGen)])
                  && (!Alive(w.tasks, if s.mode == Notify then s.recipient else s.waiter,
                             if s.mode == Notify then s.recipientGen else s.waiterGen) ==>
                        w'.tasks == w.tasks && w'.log == w.log))
  {
  }

  /**
   * Draining a task that exits: a slot is given back exactly when it is occupied and has the task as its recipient or
   * its waiter. Nobody is woken, and only the recipient of a NOTIFY slot that is another live task hears of it.
   */
  lemma DrainLaw(w: World, i: nat, t: nat)
    requires i < |w.slots|
    ensures var s, w' := w.slots[i], DrainSlot(w, i, t);
            && |w'.slots| == |w.slots| && (forall j :: 0 <= j < |w.slots| && j != i ==> w'.slots[j] == w.slots[j])
            && w'.tasks == w.tasks
            && (if s.occupied && (s.recipient == Some(t) || s.waiter == Some(t))
                then && !w'.slots[i].occupied && !w'.slots[i].armed && w'.slots[i].owner.None?
                     && w'.slots[i].recipient.None? && w'.slots[i].waiter.None? && w'.slots[i].pending == 0
                     && (if s.mode == Notify && s.recipient != Some(t) && Alive(w.tasks, s.recipient, s.recipientGen)
                         then Told(w, w', Notified(s.recipient.value, s.recipientGen, 0)) else w'.log == w.log)
                else w' == w)
  {
  }

  /**
   * The locked part of an interrupt: it is the table's exactly when the slot is armed for this vector. A NOTIFY slot
   * signals its recipient with the vector and does not count; a WAIT slot counts modulo 2^32 and wakes its waiter.
   */
  lemma DeliverLaw(w: World, i: nat, vector: nat)
    requires i < |w.slots|
    ensures var s := w.slots[i]; var (w', ok) := Deliver(w, i, vector); var s' := s.(waiter := None, waiterGen := 0);
            && (ok <==> s.armed && s.vector == vector)
            && (!ok ==> w' == w)
            && (ok && s.mode == Notify && Alive(w.tasks, s.recipient, s.recipientGen) ==>
                  w' == w.(log := w.log + [Notified(s.recipient.value, s.recipientGen, vector)]))
            && (ok && s.mode == Notify && !Alive(w.tasks, s.recipient, s.recipientGen) ==> w' == w)
            && (ok && s.mode == Wait && Alive(w.tasks, s.waiter, s.waiterGen) ==>
                  w' == w.(log := w.log + [MadeReady(s.waiter.value, s.waiterGen)],
                           tasks := w.tasks[s.waiter.value := Task(Ready, s.waiterGen)],
                           slots := w.slots[i := s'.(pending := (s.pending + 1) % 4294967296)]))
            && (ok && s.mode == Wait && !Alive(w.tasks, s.waiter, s.waiterGen) ==>
                  w' == w.(slots := w.slots[i := s.(pending := (s.pending + 1) % 4294967296)]))
  {
  }

  /** The table starts with sixteen free slots, and task generations count modulo 2^32 from 1. */
  lemma StartLaw(pic0: seq<bool>, n: nat)
    ensures var s := Init(pic0);
            && |s.w.slots| == |s.consumed| == |s.taken| == 16 && s.w.pic == pic0 && s.w.open == {} && s.made == 0
            && forall i :: 0 <= i < 16 ==> !s.w.slots[i].occupied && s.consumed[i] == s.taken[i] == 0
    ensures Generation(n) == (n + 1) % 4294967296
  {
  }

  // ---- every interrupt is taken by a wait ----

  function Repeat<T>(x: T, n: nat): (r: seq<T>)
    ensures |r| == n && forall i :: 0 <= i < n ==> r[i] == x
  {
    seq(n, _ => x)
  }

  lemma {:induction false} RunSplit(s: Sys, a: seq<Label>, b: seq<Label>)
    ensures Run(s, a + b) == Run(Run(s, a), b)
    decreases |b|
  {
    if b == [] {
      assert a + b == a;
    } else {
      var n := |b| - 1;
      assert (a + b)[..|a + b| - 1] == a + b[..n];
      RunSplit(s, a, b[..n]);
    }
  }

  /** A task that runs and owns an armed slot for waits. */
  predicate MayWait(s: Sys, i: nat, owner: nat, vector: nat, t: nat) {
    && i < |s.w.slots| == |s.taken| == |s.consumed| && Runs(s.w, t) && WaitsOn(s.w.slots[i], owner, vector, t)
  }

  /** One wait with an interrupt pending: it is taken at once and the task runs on. */
  lemma WaitTakes(s: Sys, i: nat, owner: nat, vector: nat, t: nat)
    requires MayWait(s, i, owner, vector, t) && s.w.slots[i].pending > 0
    ensures var s' := Apply(s, Enters(i, owner, vector, t));
            && MayWait(s', i, owner, vector, t) && s'.w.tasks == s.w.tasks
            && s'.w.slots[i].pending == s.w.slots[i].pending - 1
            && s'.taken[i] == s.taken[i] + 1 && s'.consumed == s.consumed
  {
    EnterLaw(s.w, i, owner, vector, t);
  }

  /** As many waits in a row as interrupts are pending all take one, and the next one sleeps. */
  lemma {:induction false} WaitsTakeAll(s: Sys, i: nat, owner: nat, vector: nat, t: nat, k: nat)
    requires MayWait(s, i, owner, vector, t) && k <= s.w.slots[i].pending
    ensures var s' := Run(s, Repeat(Enters(i, owner, vector, t), k));
            && MayWait(s', i, owner, vector, t) && s'.w.tasks == s.w.tasks
            && s'.w.slots[i].pending == s.w.slots[i].pending - k
            && s'.taken[i] == s.taken[i] + k && s'.consumed == s.consumed
  {
    var waits := Repeat(Enters(i, owner, vector, t), k);
    if k == 0 {
    } else {
      WaitsTakeAll(s, i, owner, vector, t, k - 1);
      assert waits[..k - 1] == Repeat(Enters(i, owner, vector, t), k - 1);
      WaitTakes(Run(s, waits[..k - 1]), i, owner, vector, t);
    }
  }

  /**
   * After any run: when `k` interrupts were consumed since the slot was armed and not yet taken, and `k` fits 32 bits,
   * the next `k` waits of its recipient take them without sleeping, and the wait after them sleeps.
   */
  lemma ConsumedAreTaken(s: Sys, i: nat, owner: nat, vector: nat, t: nat)
    requires Inv(s) && i < SLOTS && Runs(s.w, t) && WaitsOn(s.w.slots[i], owner, vector, t)
    requires s.consumed[i] < s.taken[i] + PENDING_MODULUS
    ensures var k := s.consumed[i] - s.taken[i];
            var s' := Run(s, Repeat(Enters(i, owner, vector, t), k));
            && k >= 0 && MayWait(s', i, owner, vector, t) && s'.taken[i] == s'.consumed[i] == s.consumed[i]
            && EnterWait(s'.w, i, owner, vector, t).1 == Sleeps
  {
    var k := s.consumed[i] - s.taken[i];
    assert s.w.slots[i].pending == k;
    WaitsTakeAll(s, i, owner, vector, t, k);
    var s' := Run(s, Repeat(Enters(i, owner, vector, t), k));
    EnterLaw(s'.w, i, owner, vector, t);
  }

  // ---- interrupts first, waits later ----

  /** An interrupt on the slot's vector, from search to lock. */
  function Interrupt(s: Sys, vector: nat): seq<Label> {
    [IsrFinds(vector), IsrLocks(|s.inFlight|)]
  }

  /** The slot is the first to hold its vector, as it is when no two slots share one. */
  predicate FoundFirst(s: Sys, i: nat, vector: nat) {
    i < |s.w.slots| && Find(s.w.slots, vector, 0) == i
  }

  lemma TwoSteps(s: Sys, a: Label, b: Label)
    ensures Run(s, [a, b]) == Apply(Apply(s, a), b)
  {
    assert [a, b][..1] == [a] && [a][..0] == [];
    assert Run(s, [a]) == Apply(s, a);
  }

  lemma SameFind(slots: seq<Slot>, slots': seq<Slot>, vector: nat, i: nat, from: nat)
    requires |slots'| == |slots| && from <= i < |slots| && Find(slots, vector, from) == i
    requires forall j :: 0 <= j < |slots| ==> (Holds(slots'[j], vector) <==> Holds(slots[j], vector))
    ensures Find(slots', vector, from) == i
  {
  }

  /** A task that may wait and does not, and `n` interrupts counted for it since `s0`. */
  ghost predicate Counted(s0: Sys, s: Sys, i: nat, owner: nat, vector: nat, t: nat, n: nat) {
    && MayWait(s0, i, owner, vector, t) && MayWait(s, i, owner, vector, t) && FoundFirst(s, i, vector)
    && s.w.slots[i].waiter.None? && s.w.slots[i].pending == s0.w.slots[i].pending + n && s.inFlight == s0.inFlight
    && s.consumed[i] == s0.consumed[i] + n && s.taken == s0.taken
  }

  lemma LockCounts(s: Sys, i: nat, vector: nat)
    requires i < |s.w.slots| == |s.consumed| && s.inFlight != [] && s.inFlight[|s.inFlight| - 1] == Found(vector, i)
    requires s.w.slots[i].armed && s.w.slots[i].vector == vector && s.w.slots[i].mode == Wait
    requires s.w.slots[i].waiter.None? && s.w.slots[i].pending + 1 < PENDING_MODULUS
    ensures var n := |s.inFlight| - 1;
            Apply(s, IsrLocks(n))
              == s.(w := s.w.(slots := s.w.slots[i := s.w.slots[i].(pending := s.w.slots[i].pending + 1)]),
                    inFlight := s.inFlight[..n], consumed := s.consumed[i := s.consumed[i] + 1])
  {
    assert DropAt(s.inFlight, |s.inFlight| - 1) == s.inFlight[..|s.inFlight| - 1];
  }

  /** An interrupt that meets nobody waiting is counted. */
  lemma InterruptCounted(s0: Sys, s: Sys, i: nat, owner: nat, vector: nat, t: nat, n: nat)
    requires Counted(s0, s, i, owner, vector, t, n) && s.w.slots[i].pending + 1 < PENDING_MODULUS
    ensures Counted(s0, Run(s, Interrupt(s0, vector)), i, owner, vector, t, n + 1)
  {
    var m := |s.inFlight|;
    TwoSteps(s, IsrFinds(vector), IsrLocks(m));
    var s1 := Apply(s, IsrFinds(vector));
    assert s1 == s.(inFlight := s.inFlight + [Found(vector, i)]);
    LockCounts(s1, i, vector);
    assert s1.inFlight[..m] == s.inFlight;
    SameFind(s.w.slots, Apply(s1, IsrLocks(m)).w.slots, vector, i, 0);
  }

  function Interrupts(s: Sys, vector: nat, k: nat): seq<Label> {
    if k == 0 then [] else Interrupts(s, vector, k - 1) + Interrupt(s, vector)
  }

  lemma {:induction false} InterruptsCounted(s: Sys, i: nat, owner: nat, vector: nat, t: nat, k: nat)
    requires Counted(s, s, i, owner, vector, t, 0) && s.w.slots[i].pending + k < PENDING_MODULUS
    ensures Counted(s, Run(s, Interrupts(s, vector, k)), i, owner, vector, t, k)
  {
    if k == 0 {
    } else {
      InterruptsCounted(s, i, owner, vector, t, k - 1);
      OneMoreInterrupt(s, Interrupts(s, vector, k - 1), Interrupts(s, vector, k), i, owner, vector, t, k - 1);
    }
  }

  lemma OneMoreInterrupt(s: Sys, a: seq<Label>, b: seq<Label>, i: nat, owner: nat, vector: nat, t: nat, n: nat)
    requires b == a + Interrupt(s, vector) && Counted(s, Run(s, a), i, owner, vector, t, n)
    requires s.w.slots[i].pending + n + 1 < PENDING_MODULUS
    ensures Counted(s, Run(s, b), i, owner, vector, t, n + 1)
  {
    RunSplit(s, a, Interrupt(s, vector));
    InterruptCounted(s, Run(s, a), i, owner, vector, t, n);
  }

  /**
   * Any number of interrupts, below 2^32, that come before the task waits are all delivered: that many waits in a row
   * return at once, and only the wait after them sleeps.
   */
  lemma NoInterruptLost(s: Sys, i: nat, owner: nat, vector: nat, t: nat, k: nat)
    requires MayWait(s, i, owner, vector, t) && FoundFirst(s, i, vector)
    requires s.w.slots[i].waiter.None? && s.w.slots[i].pending == 0 && k < PENDING_MODULUS
    ensures var s' := Run(s, Interrupts(s, vector, k) + Repeat(Enters(i, owner, vector, t), k));
            && MayWait(s', i, owner, vector, t)
            && s'.taken[i] == s.taken[i] + k && s'.consumed[i] == s.consumed[i] + k
            && EnterWait(s'.w, i, owner, vector, t).1 == Sleeps
  {
    InterruptsCounted(s, i, owner, vector, t, k);
    var s1 := Run(s, Interrupts(s, vector, k));
    RunSplit(s, Interrupts(s, vector, k), Repeat(Enters(i, owner, vector, t), k));
    WaitsTakeAll(s1, i, owner, vector, t, k);
    EnterLaw(Run(s1, Repeat(Enters(i, owner, vector, t), k)).w, i, owner, vector, t);
  }
}
