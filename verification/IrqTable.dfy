/**
 * The interrupt delivery table of the kernel (x86_64): a bounded array of slots, each mapping a
 * vector to the capability that claimed it and the task armed to receive it. Every critical section
 * of the source is one function on the `World`; the class below performs it on the slot array.
 */
module IrqTable {
  import opened Bytes

  const SLOTS := 16
  const PIC_LINES := 16
  const VECTOR_MIN := 33
  const PIC_VECTOR_MAX := 47
  const VECTOR_MAX := 255
  const TIMER_VECTOR := 32
  const SYSCALL_VECTOR := 0x80
  const APIC_TIMER_VECTOR := 0xE0
  const SPURIOUS_VECTOR := 0xFF
  const PENDING_MODULUS := 0x1_0000_0000
  const REVOKED := 0

  datatype Kind = Pic | Msix
  datatype Mode = Wait | Notify

  /** One delivery registration. Capabilities and tasks are identified by their addresses. */
  datatype Slot = Slot(
    vector: nat, kind: Kind, occupied: bool, armed: bool, lineWasMasked: bool, mode: Mode,
    owner: Option<nat>, recipient: Option<nat>, recipientGen: nat,
    pending: nat, waiter: Option<nat>, waiterGen: nat)

  datatype TaskState = Ready | Running | Blocked | Terminated | Reaped
  datatype Task = Task(state: TaskState, gen: nat)

  /** What the table tells the scheduler and the notification objects. */
  datatype Effect = MadeReady(task: nat, gen: nat) | Notified(task: nat, gen: nat, value: nat)

  /**
   * Everything the table reads and writes: its slots, the mask bit of each interrupt line, the MSI-X
   * entries that are unmasked (by owning capability), and the tasks.
   */
  datatype World = World(slots: seq<Slot>, pic: seq<bool>, open: set<nat>, tasks: map<nat, Task>, log: seq<Effect>)

  const EMPTY_SLOT := Slot(0, Pic, false, false, true, Wait, None, None, 0, 0, None, 0)

  predicate Dead(s: TaskState) {
    s == Terminated || s == Reaped
  }

  /** The task a slot refers to is neither dead nor a later task at the same address. */
  predicate Alive(tasks: map<nat, Task>, t: Option<nat>, gen: nat) {
    t.Some? && t.value in tasks && !Dead(tasks[t.value].state) && tasks[t.value].gen == gen
  }

  predicate Claimable(vector: nat) {
    && VECTOR_MIN <= vector <= VECTOR_MAX && vector != SYSCALL_VECTOR && vector != TIMER_VECTOR
    && vector != APIC_TIMER_VECTOR && vector != SPURIOUS_VECTOR
  }

  function KindOf(vector: nat): Kind {
    if vector <= PIC_VECTOR_MAX then Pic else Msix
  }

  predicate Holds(s: Slot, vector: nat) {
    s.occupied && s.vector == vector
  }

  /** The first slot from `i` on that holds `vector`, or the table size. */
  function Find(slots: seq<Slot>, vector: nat, i: nat): (k: nat)
    requires i <= |slots|
    ensures i <= k <= |slots|
    ensures k < |slots| ==> Holds(slots[k], vector)
    ensures forall j :: i <= j < k ==> !Holds(slots[j], vector)
    decreases |slots| - i
  {
    if i == |slots| || Holds(slots[i], vector) then i else Find(slots, vector, i + 1)
  }

  /** The first free slot from `i` on, or the table size. */
  function FirstFree(slots: seq<Slot>, i: nat): (k: nat)
    requires i <= |slots|
    ensures i <= k <= |slots|
    ensures k < |slots| ==> !slots[k].occupied
    ensures forall j :: i <= j < k ==> slots[j].occupied
    decreases |slots| - i
  {
    if i == |slots| || !slots[i].occupied then i else FirstFree(slots, i + 1)
  }

  // ---- the critical sections ----

  function ClaimedSlot(vector: nat): Slot {
    Slot(vector, KindOf(vector), true, false, true, Wait, None, None, 0, 0, None, 0)
  }

  /** `claim_slot`: the index claimed, or the table size when the claim is refused. */
  function Claim(w: World, vector: nat, threaded: bool): (World, nat) {
    var k := FirstFree(w.slots, 0);
    if !Claimable(vector) || threaded || Find(w.slots, vector, 0) < |w.slots| || k == |w.slots| then (w, |w.slots|)
    else (w.(slots := w.slots[k := ClaimedSlot(vector)]), k)
  }

  /** `set_slot_owner`. */
  function SetOwner(w: World, i: int, owner: Option<nat>): World {
    if !(0 <= i < |w.slots|) || !w.slots[i].occupied then w
    else w.(slots := w.slots[i := w.slots[i].(owner := owner)])
  }

  predicate CanArm(s: Slot, owner: nat, vector: nat, mode: nat) {
    s.occupied && !s.armed && s.owner == Some(owner) && s.vector == vector && mode <= 1
  }

  function LineMasked(pic: seq<bool>, vector: nat): bool {
    32 <= vector < 32 + |pic| && pic[vector - 32]
  }

  function SetLine(pic: seq<bool>, vector: nat, masked: bool): seq<bool> {
    if 32 <= vector < 32 + |pic| then pic[vector - 32 := masked] else pic
  }

  function ArmedSlot(s: Slot, pic: seq<bool>, t: nat, gen: nat, mode: nat): Slot {
    s.(mode := if mode == 0 then Wait else Notify, recipient := Some(t), recipientGen := gen, armed := true,
       lineWasMasked := if s.kind == Pic then LineMasked(pic, s.vector) else s.lineWasMasked)
  }

  /** `arm`: unmasks the line or the MSI-X entry; delivery modes other than 0 and 1 are refused. */
  function Arm(w: World, i: int, owner: nat, vector: nat, t: nat, mode: nat): (World, bool)
    requires t in w.tasks
  {
    if !(0 <= i < |w.slots|) || !CanArm(w.slots[i], owner, vector, mode) then (w, false)
    else
      var s := w.slots[i];
      (w.(slots := w.slots[i := ArmedSlot(s, w.pic, t, w.tasks[t].gen, mode)],
          pic := if s.kind == Pic then SetLine(w.pic, vector, false) else w.pic,
          open := if s.kind == Pic then w.open else w.open + {owner}), true)
  }

  function WakeTask(w: World, t: nat): World
    requires t in w.tasks
  {
    w.(tasks := w.tasks[t := w.tasks[t].(state := Ready)], log := w.log + [MadeReady(t, w.tasks[t].gen)])
  }

  /** Makes the task ready when it is alive in the given generation. */
  function WakeIfAlive(w: World, t: Option<nat>, gen: nat): World {
    if Alive(w.tasks, t, gen) then WakeTask(w, t.value) else w
  }

  function NotifyIfAlive(w: World, t: Option<nat>, gen: nat, value: nat): World {
    if Alive(w.tasks, t, gen) then w.(log := w.log + [Notified(t.value, gen, value)]) else w
  }

  /** The slot after an interrupt in WAIT mode; the count wraps at 32 bits. */
  function Counted(s: Slot, woken: bool): Slot {
    var s' := s.(pending := (s.pending + 1) % PENDING_MODULUS);
    if woken then s'.(waiter := None, waiterGen := 0) else s'
  }

  /** The part of `isr_entry` under the slot lock; false falls through to the generic handler. */
  function Deliver(w: World, i: nat, vector: nat): (World, bool)
    requires i < |w.slots|
  {
    var s := w.slots[i];
    if !s.armed || s.vector != vector then (w, false)
    else if s.mode == Notify then (NotifyIfAlive(w, s.recipient, s.recipientGen, vector), true)
    else
      var w' := WakeIfAlive(w, s.waiter, s.waiterGen);
      (w'.(slots := w.slots[i := Counted(s, Alive(w.tasks, s.waiter, s.waiterGen))]), true)
  }

  /** A slot given back: everything but the stale vector, kind and mask memory is reset. */
  function Cleared(s: Slot): Slot {
    s.(occupied := false, armed := false, mode := Wait, owner := None, recipient := None, recipientGen := 0,
       pending := 0, waiter := None, waiterGen := 0)
  }

  /** The hardware after disarming: the MSI-X entry is masked, the line goes back to its mask before arming. */
  function Disarm(w: World, s: Slot): World {
    if !s.armed then w
    else if s.kind == Msix then (if s.owner.Some? then w.(open := w.open - {s.owner.value}) else w)
    else if s.lineWasMasked then w.(pic := SetLine(w.pic, s.vector, true)) else w
  }

  /** `release_slot_idx`; without an owner argument any occupied slot is released. */
  function Release(w: World, i: int, owner: Option<nat>): (World, bool) {
    if !(0 <= i < |w.slots|) || !w.slots[i].occupied || (owner.Some? && w.slots[i].owner != owner) then (w, false)
    else
      var s := w.slots[i];
      var w1 := Disarm(w, s);
      var w2 := if s.mode == Notify then NotifyIfAlive(w1, s.recipient, s.recipientGen, REVOKED)
                else WakeIfAlive(w1, s.waiter, s.waiterGen);
      (w2.(slots := w.slots[i := Cleared(s)]), true)
  }

  predicate RefersTo(s: Slot, t: nat) {
    s.recipient == Some(t) || s.waiter == Some(t)
  }

  /** One slot of `drain_task`; only the notification object of another task is ever signalled. */
  function DrainSlot(w: World, i: nat, t: nat): World
    requires i < |w.slots|
  {
    var s := w.slots[i];
    if !s.occupied || !RefersTo(s, t) then w
    else
      var w1 := if s.mode == Notify && s.recipient != Some(t)
          then NotifyIfAlive(w, s.recipient, s.recipientGen, REVOKED) else w;
      Disarm(w1, s).(slots := w.slots[i := Cleared(s)])
  }

  /** The first `n` slots of `drain_task`. */
  function Drain(w: World, t: nat, n: nat): (w': World)
    requires n <= |w.slots|
    ensures |w'.slots| == |w.slots|
  {
    if n == 0 then w else DrainSlot(Drain(w, t, n - 1), n - 1, t)
  }

  datatype WaitAnswer = Took | Refused | Sleeps

  predicate CanWait(s: Slot, owner: nat, vector: nat, t: nat) {
    s.occupied && s.vector == vector && s.owner == Some(owner) && s.recipient == Some(t) && s.mode == Wait
  }

  /** The first lock section of `sys_irq_wait`: take a pending interrupt, or register and block. */
  function EnterWait(w: World, i: nat, owner: nat, vector: nat, t: nat): (World, WaitAnswer)
    requires i < |w.slots| && t in w.tasks
  {
    var s := w.slots[i];
    if !CanWait(s, owner, vector, t) then (w, Refused)
    else if s.pending > 0 && s.armed then (w.(slots := w.slots[i := s.(pending := s.pending - 1)]), Took)
    else if !s.armed then (w, Refused)
    else (w.(slots := w.slots[i := s.(waiter := Some(t), waiterGen := w.tasks[t].gen)],
             tasks := w.tasks[t := w.tasks[t].(state := Blocked)]), Sleeps)
  }

  function Unregistered(s: Slot, t: nat): Slot {
    if s.waiter == Some(t) then s.(waiter := None, waiterGen := 0) else s
  }

  /** The roll-back of `sys_irq_wait` when interrupts are off. */
  function RollBackWait(w: World, i: nat, t: nat): World
    requires i < |w.slots| && t in w.tasks
  {
    w.(slots := w.slots[i := Unregistered(w.slots[i], t)], tasks := w.tasks[t := w.tasks[t].(state := Running)])
  }

  /** The last lock section of `sys_irq_wait`, after the task was woken. */
  function ResumeWait(w: World, i: nat, owner: nat, vector: nat, t: nat): (World, bool)
    requires i < |w.slots|
  {
    var s := w.slots[i];
    if !CanWait(s, owner, vector, t) then (w, false)
    else
      var took := s.pending > 0 && s.armed;
      var s' := if took then s.(pending := s.pending - 1) else s;
      (w.(slots := w.slots[i := Unregistered(s', t)]), took)
  }

  // ---- the table, updated in place ----

  class IrqDelivery {
    const regs: array<Slot>
    var pic: seq<bool>
    var open: set<nat>
    var tasks: map<nat, Task>
    var log: seq<Effect>

    ghost function Snapshot(): World
      reads this, regs
    {
      World(regs[..], pic, open, tasks, log)
    }

    constructor (pic: seq<bool>, tasks: map<nat, Task>)
      ensures fresh(regs) && Snapshot() == World(seq(SLOTS, _ => EMPTY_SLOT), pic, {}, tasks, [])
    {
      regs := new Slot[SLOTS](_ => EMPTY_SLOT);
      this.pic, open, this.tasks, log := pic, {}, tasks, [];
      new;
      assert regs[..] == seq(SLOTS, _ => EMPTY_SLOT);
    }

    method FindSlot(vector: nat) returns (k: nat)
      ensures k == Find(regs[..], vector, 0)
    {
      k := 0;
      while k < regs.Length
        invariant k <= regs.Length && Find(regs[..], vector, 0) == Find(regs[..], vector, k)
      {
        if regs[k].occupied && regs[k].vector == vector { return; }
        k := k + 1;
      }
    }

    method ClaimSlot(vector: nat, threaded: bool) returns (idx: nat)
      modifies regs
      ensures (Snapshot(), idx) == Claim(old(Snapshot()), vector, threaded)
    {
      idx := regs.Length;
      if vector < VECTOR_MIN || vector > VECTOR_MAX { return; }
      if vector == SYSCALL_VECTOR || vector == TIMER_VECTOR { return; }
      if vector == APIC_TIMER_VECTOR || vector == SPURIOUS_VECTOR { return; }
      if threaded { return; }
      var k := FindSlot(vector);
      if k < regs.Length { return; }
      var i := 0;
      while i < regs.Length
        invariant i <= regs.Length && regs[..] == old(regs[..])
        invariant FirstFree(regs[..], 0) == FirstFree(regs[..], i)
      {
        if !regs[i].occupied {
          regs[i] := ClaimedSlot(vector);
          return i;
        }
        i := i + 1;
      }
    }

    method SetSlotOwner(i: int, owner: Option<nat>)
      modifies regs
      ensures Snapshot() == SetOwner(old(Snapshot()), i, owner)
    {
      if i < 0 || i >= regs.Length || !regs[i].occupied { return; }
      regs[i] := regs[i].(owner := owner);
    }

    method ArmSlot(i: int, owner: nat, vector: nat, t: nat, mode: nat) returns (ok: bool)
      requires t in tasks
      modifies regs, this`pic, this`open
      ensures (Snapshot(), ok) == Arm(old(Snapshot()), i, owner, vector, t, mode)
    {
      if i < 0 || i >= regs.Length { return false; }
      if !regs[i].occupied || regs[i].armed || regs[i].owner != Some(owner) || regs[i].vector != vector {
        return false;
      }
      if mode != 0 && mode != 1 { return false; }
      regs[i] := regs[i].(mode := if mode == 0 then Wait else Notify);
      regs[i] := regs[i].(recipient := Some(t), recipientGen := tasks[t].gen);
      regs[i] := regs[i].(armed := true);
      if regs[i].kind == Pic {
        regs[i] := regs[i].(lineWasMasked := LineMasked(pic, vector));
        pic := SetLine(pic, vector, false);
      } else {
        open := open + {owner};
      }
      assert regs[..] == old(regs[..])[i := ArmedSlot(old(regs[i]), old(pic), t, tasks[t].gen, mode)];
      ok := true;
    }

    /** `Scheduler::set_task_ready` behind the liveness check every waker makes. */
    method Wake(t: Option<nat>, gen: nat) returns (woken: bool)
      modifies this`tasks, this`log
      ensures Snapshot() == WakeIfAlive(old(Snapshot()), t, gen) && woken == Alive(old(tasks), t, gen)
    {
      woken := Alive(tasks, t, gen);
      if woken {
        log := log + [MadeReady(t.value, tasks[t.value].gen)];
        tasks := tasks[t.value := tasks[t.value].(state := Ready)];
      }
    }

    method Signal(t: Option<nat>, gen: nat, value: nat)
      modifies this`log
      ensures Snapshot() == NotifyIfAlive(old(Snapshot()), t, gen, value)
    {
      if Alive(tasks, t, gen) { log := log + [Notified(t.value, gen, value)]; }
    }

    method IsrLocked(i: nat, vector: nat) returns (consumed: bool)
      requires i < regs.Length
      modifies regs, this`tasks, this`log
      ensures (Snapshot(), consumed) == Deliver(old(Snapshot()), i, vector)
    {
      if !regs[i].armed || regs[i].vector != vector { return false; }
      if regs[i].mode == Wait {
        regs[i] := regs[i].(pending := (regs[i].pending + 1) % PENDING_MODULUS);
        var woken := Wake(regs[i].waiter, regs[i].waiterGen);
        if woken { regs[i] := regs[i].(waiter := None, waiterGen := 0); }
        assert regs[..] == old(regs[..])[i := Counted(old(regs[i]), woken)];
      } else {
        Signal(regs[i].recipient, regs[i].recipientGen, regs[i].vector);
      }
      consumed := true;
    }

    /** `isr_entry` with nothing in between the search and the lock. */
    method IsrEntry(vector: nat) returns (consumed: bool)
      modifies regs, this`tasks, this`log
      ensures var k := Find(old(regs[..]), vector, 0);
              (Snapshot(), consumed) == if k == regs.Length then (old(Snapshot()), false)
                  else Deliver(old(Snapshot()), k, vector)
    {
      var k := FindSlot(vector);
      if k == regs.Length { return false; }
      consumed := IsrLocked(k, vector);
    }

    method DisarmSlot(i: nat)
      requires i < regs.Length
      modifies regs, this`pic, this`open
      ensures Snapshot() == Disarm(old(Snapshot()),
              old(regs[i])).(slots := old(regs[..])[i := old(regs[i]).(armed := false)])
    {
      if regs[i].armed {
        regs[i] := regs[i].(armed := false);
        if regs[i].kind == Msix {
          if regs[i].owner.Some? { open := open - {regs[i].owner.value}; }
        } else if regs[i].lineWasMasked {
          pic := SetLine(pic, regs[i].vector, true);
        }
      }
      assert regs[..] == old(regs[..])[i := old(regs[i]).(armed := false)];
    }

    method ReleaseSlotIdx(i: int, owner: Option<nat>) returns (ok: bool)
      modifies regs, this
      ensures (Snapshot(), ok) == Release(old(Snapshot()), i, owner)
    {
      if i < 0 || i >= regs.Length { return false; }
      if !regs[i].occupied || (owner.Some? && regs[i].owner != owner) { return false; }
      DisarmSlot(i);
      if regs[i].mode == Notify {
        Signal(regs[i].recipient, regs[i].recipientGen, REVOKED);
      } else {
        var _ := Wake(regs[i].waiter, regs[i].waiterGen);
      }
      regs[i] := Cleared(regs[i]);
      assert regs[..] == old(regs[..])[i := Cleared(old(regs[i]))];
      ok := true;
    }

    method DrainOne(i: nat, t: nat)
      requires i < regs.Length
      modifies regs, this
      ensures Snapshot() == DrainSlot(old(Snapshot()), i, t)
    {
      if !regs[i].occupied { return; }
      if regs[i].recipient != Some(t) && regs[i].waiter != Some(t) { return; }
      if regs[i].mode == Notify && regs[i].recipient != Some(t) {
        Signal(regs[i].recipient, regs[i].recipientGen, REVOKED);
      }
      DisarmSlot(i);
      regs[i] := Cleared(regs[i]);
    }

    method DrainTask(t: nat)
      modifies regs, this
      ensures Snapshot() == Drain(old(Snapshot()), t, regs.Length)
    {
      var i := 0;
      while i < regs.Length
        invariant i <= regs.Length && Snapshot() == Drain(old(Snapshot()), t, i)
      {
        DrainOne(i, t);
        i := i + 1;
      }
    }

    method WaitEnter(i: nat, owner: nat, vector: nat, t: nat) returns (answer: WaitAnswer)
      requires i < regs.Length && t in tasks
      modifies regs, this`tasks
      ensures (Snapshot(), answer) == EnterWait(old(Snapshot()), i, owner, vector, t)
    {
      if !regs[i].occupied || regs[i].vector != vector || regs[i].owner != Some(owner)
         || regs[i].recipient != Some(t) || regs[i].mode != Wait { return Refused; }
      if regs[i].pending > 0 && regs[i].armed {
        regs[i] := regs[i].(pending := regs[i].pending - 1);
        return Took;
      }
      if !regs[i].armed { return Refused; }
      regs[i] := regs[i].(waiter := Some(t), waiterGen := tasks[t].gen);
      tasks := tasks[t := tasks[t].(state := Blocked)];
      answer := Sleeps;
    }

    method WaitRollBack(i: nat, t: nat)
      requires i < regs.Length && t in tasks
      modifies regs, this`tasks
      ensures Snapshot() == RollBackWait(old(Snapshot()), i, t)
    {
      if regs[i].waiter == Some(t) { regs[i] := regs[i].(waiter := None, waiterGen := 0); }
      tasks := tasks[t := tasks[t].(state := Running)];
      assert regs[..] == old(regs[..])[i := Unregistered(old(regs[i]), t)];
    }

    method WaitResume(i: nat, owner: nat, vector: nat, t: nat) returns (took: bool)
      requires i < regs.Length
      modifies regs
      ensures (Snapshot(), took) == ResumeWait(old(Snapshot()), i, owner, vector, t)
    {
      took := false;
      if regs[i].occupied && regs[i].vector == vector && regs[i].owner == Some(owner)
         && regs[i].recipient == Some(t) && regs[i].mode == Wait {
        if regs[i].pending > 0 && regs[i].armed {
          regs[i] := regs[i].(pending := regs[i].pending - 1);
          took := true;
        }
        if regs[i].waiter == Some(t) { regs[i] := regs[i].(waiter := None, waiterGen := 0); }
        assert regs[..] == old(regs[..])[i := Unregistered(if took
               then old(regs[i]).(pending := old(regs[i]).pending - 1) else old(regs[i]), t)];
      }
    }
  }
}
