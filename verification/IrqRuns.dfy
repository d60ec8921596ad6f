/**
 * Every interleaving of the critical sections of the delivery table: claims, binding of owners, arming,
 * interrupts (search and locked part are separate steps), the three lock sections of the wait system
 * call, releases, slot-by-slot draining, and tasks that die and are recycled.
 */
module IrqRuns {
  import opened Bytes
  import opened IrqTable

  /** An interrupt whose handler has searched the table and not yet taken the slot lock. */
  datatype Found = Found(vector: nat, slot: nat)

  /**
   * The system: the world of the table, the line masks at the start, interrupts between search and lock,
   * and the history of each slot since it was last armed (interrupts consumed, interrupts taken), of the
   * number of tasks set up so far, from which generations are taken.
   */
  datatype Sys = Sys(w: World, pic0: seq<bool>, inFlight: seq<Found>, consumed: seq<nat>, taken: seq<nat>,
                     made: nat)

  const GENERATIONS := 0x1_0000_0000

  /** The generation of the task set up after `n` others: a 32-bit counter that starts at 1. */
  function Generation(n: nat): nat {
    (n + 1) % GENERATIONS
  }

  datatype Label =
    | Claims(vector: nat, threaded: bool)
    | Binds(slot: nat, cap: nat)
    | Abandons(slot: nat)
    | Releases(idx: int, cap: nat)
    | Arms(idx: int, cap: nat, vector: nat, task: nat, mode: nat)
    | IsrFinds(vector: nat)
    | IsrLocks(k: nat)
    | Enters(slot: nat, cap: nat, vector: nat, task: nat)
    | RollsBack(slot: nat, task: nat)
    | Resumes(slot: nat, cap: nat, vector: nat, task: nat)
    | Dies(task: nat, state: TaskState)
    | Drains(slot: nat, task: nat)
    | Recycles(task: nat)
    | WokenElsewhere(task: nat)

  function Init(pic0: seq<bool>): Sys {
    Sys(World(seq(SLOTS, _ => EMPTY_SLOT), pic0, {}, map[], []), pic0, [],
        seq(SLOTS, _ => 0), seq(SLOTS, _ => 0), 0)
  }

  predicate Runs(w: World, t: nat) {
    t in w.tasks && !Dead(w.tasks[t].state) && w.tasks[t].state != Blocked
  }

  predicate Gone(w: World, t: nat) {
    t in w.tasks && Dead(w.tasks[t].state)
  }

  /** The capability owns a slot. */
  predicate Holding(w: World, cap: nat) {
    exists i :: 0 <= i < |w.slots| && w.slots[i].owner == Some(cap)
  }

  predicate Clear(w: World, t: nat) {
    forall i :: 0 <= i < |w.slots| ==> !RefersTo(w.slots[i], t)
  }

  function SetState(w: World, t: nat, state: TaskState): World
    requires t in w.tasks
  {
    w.(tasks := w.tasks[t := w.tasks[t].(state := state)])
  }

  function Bump(counts: seq<nat>, i: nat, yes: bool): seq<nat> {
    if yes && i < |counts| then counts[i := counts[i] + 1] else counts
  }

  function Reset(counts: seq<nat>, i: int, yes: bool): seq<nat> {
    if yes && 0 <= i < |counts| then counts[i := 0] else counts
  }

  function DropAt(s: seq<Found>, k: nat): seq<Found>
    requires k < |s|
  {
    s[..k] + s[k + 1..]
  }

  /**
   * The effect of a step. The kernel binds a capability that holds no slot to the one it has just claimed, gives
   * up an unbound slot without an owner, arms and waits only for the running task, drains only dead tasks,
   * and reuses a task's memory only after it was drained; a step that breaks this order changes nothing.
   * Releases and interrupts are not restricted: they may carry any stale index.
   */
  function Apply(s: Sys, l: Label): Sys {
    match l
    case Claims(vector, threaded) => s.(w := Claim(s.w, vector, threaded).0)
    case Binds(i, cap) =>
      if i < |s.w.slots| && s.w.slots[i].occupied && s.w.slots[i].owner.None? && !Holding(s.w, cap)
      then s.(w := SetOwner(s.w, i, Some(cap)))
      else s
    case Abandons(i) =>
      if i < |s.w.slots| && s.w.slots[i].owner.None? then s.(w := Release(s.w, i, None).0) else s
    case Releases(i, cap) => s.(w := Release(s.w, i, Some(cap)).0)
    case Arms(i, cap, vector, t, mode) =>
      if !Runs(s.w, t) then s
      else
        var (w', ok) := Arm(s.w, i, cap, vector, t, mode);
        s.(w := w', consumed := Reset(s.consumed, i, ok), taken := Reset(s.taken, i, ok))
    case IsrFinds(vector) =>
      var k := Find(s.w.slots, vector, 0);
      if k < |s.w.slots| then s.(inFlight := s.inFlight + [Found(vector, k)]) else s
    case IsrLocks(k) =>
      if k >= |s.inFlight| then s
      else if s.inFlight[k].slot >= |s.w.slots| then s
      else
        var i := s.inFlight[k].slot;
        var (w', hit) := Deliver(s.w, i, s.inFlight[k].vector);
        s.(w := w', inFlight := DropAt(s.inFlight, k),
            consumed := Bump(s.consumed, i, hit && s.w.slots[i].mode == Wait))
    case Enters(i, cap, vector, t) =>
      if i >= |s.w.slots| || !Runs(s.w, t) then s
      else
        var (w', answer) := EnterWait(s.w, i, cap, vector, t);
        s.(w := w', taken := Bump(s.taken, i, answer == Took))
    case RollsBack(i, t) =>
      if i < |s.w.slots| && t in s.w.tasks && !Dead(s.w.tasks[t].state)
      then s.(w := RollBackWait(s.w, i, t)) else s
    case Resumes(i, cap, vector, t) =>
      if i >= |s.w.slots| || !Runs(s.w, t) then s
      else
        var (w', took) := ResumeWait(s.w, i, cap, vector, t);
        s.(w := w', taken := Bump(s.taken, i, took))
    case Dies(t, state) =>
      if t in s.w.tasks && Dead(state) then s.(w := SetState(s.w, t, state)) else s
    case Drains(i, t) =>
      if i < |s.w.slots| && Gone(s.w, t) then s.(w := DrainSlot(s.w, i, t)) else s
    case Recycles(t) =>
      if (t in s.w.tasks ==> Dead(s.w.tasks[t].state)) && Clear(s.w, t)
      then s.(w := s.w.(tasks := s.w.tasks[t := Task(Ready, Generation(s.made))]), made := s.made + 1)
      else s
    case WokenElsewhere(t) =>
      if t in s.w.tasks && s.w.tasks[t].state == Blocked then s.(w := SetState(s.w, t, Ready)) else s
  }

  function Run(s: Sys, labels: seq<Label>): Sys {
    if labels == [] then s else Apply(Run(s, labels[..|labels| - 1]), labels[|labels| - 1])
  }

  // ---- the invariant ----

  /** What holds of every single slot. */
  predicate SlotInv(s: Slot, tasks: map<nat, Task>) {
    && (s.occupied ==> Claimable(s.vector) && s.kind == KindOf(s.vector))
    && (!s.occupied ==> s == Cleared(s))
    && (s.armed ==> s.occupied && s.owner.Some? && s.recipient.Some?)
    && (!s.armed ==> s.recipient.None? && s.waiter.None? && s.pending == 0 && s.mode == Wait)
    && (s.recipient.Some? ==> s.recipient.value in tasks && s.recipientGen == tasks[s.recipient.value].gen)
    && (s.waiter.Some? ==> s.mode == Wait && s.waiter == s.recipient && s.waiterGen == s.recipientGen)
    && (s.mode == Notify ==> s.pending == 0)
    && s.pending < PENDING_MODULUS
    && (Alive(tasks, s.waiter, s.waiterGen) ==> s.pending == 0)
  }

  ghost predicate TableInv(slots: seq<Slot>, tasks: map<nat, Task>) {
    && |slots| == SLOTS
    && (forall i :: 0 <= i < |slots| ==> SlotInv(slots[i], tasks))
    && (forall i, j :: 0 <= i < j < |slots| && slots[i].occupied && slots[j].occupied ==>
        slots[i].vector != slots[j].vector)
    && (forall i, j :: 0 <= i < j < |slots| && slots[i].owner.Some? ==> slots[i].owner != slots[j].owner)
  }

  predicate OpenBy(s: Slot, cap: nat) {
    s.armed && s.kind == Msix && s.owner == Some(cap)
  }

  predicate OnLine(s: Slot, line: nat) {
    s.armed && s.kind == Pic && s.vector == 32 + line
  }

  /** Masks are conserved: only an armed slot opens its line or entry, and it remembers the line's first mask. */
  ghost predicate MaskInv(slots: seq<Slot>, pic: seq<bool>, pic0: seq<bool>, open: set<nat>) {
    && |pic| == |pic0| == PIC_LINES
    && (forall i, line :: 0 <= i < |slots| && 0 <= line < PIC_LINES && OnLine(slots[i], line) ==>
          !pic[line] && slots[i].lineWasMasked == pic0[line])
    && (forall line :: 0 <= line < PIC_LINES && (forall i :: 0 <= i < |slots| ==> !OnLine(slots[i], line)) ==>
          pic[line] == pic0[line])
    && (forall i, cap :: 0 <= i < |slots| && OpenBy(slots[i], cap) ==> cap in open)
    && (forall cap :: cap in open ==> exists i :: 0 <= i < |slots| && OpenBy(slots[i], cap))
  }

  /** The pending count of an armed slot is what was consumed and not yet taken, modulo the counter width. */
  ghost predicate CountInv(slots: seq<Slot>, consumed: seq<nat>, taken: seq<nat>) {
    && |consumed| == |taken| == |slots|
    && forall i :: 0 <= i < |slots| && slots[i].armed ==>
         taken[i] <= consumed[i] && slots[i].pending == (consumed[i] - taken[i]) % PENDING_MODULUS
  }

  /** A blocked task is registered somewhere, so a wake-up for it is still to come. */
  ghost predicate SleepInv(slots: seq<Slot>, tasks: map<nat, Task>) {
    forall t :: t in tasks && tasks[t].state == Blocked ==> exists i :: 0 <= i < |slots| && slots[i].waiter == Some(t)
  }

  ghost predicate Inv(s: Sys) {
    && TableInv(s.w.slots, s.w.tasks)
    && MaskInv(s.w.slots, s.w.pic, s.pic0, s.w.open)
    && CountInv(s.w.slots, s.consumed, s.taken)
    && SleepInv(s.w.slots, s.w.tasks)
  }

  // ---- one slot changes at a time ----

  /** Tasks keep their generation, and the dead stay dead. */
  ghost predicate TasksMove(tasks: map<nat, Task>, tasks': map<nat, Task>) {
    forall t :: t in tasks ==>
        t in tasks' && tasks'[t].gen == tasks[t].gen && (Dead(tasks[t].state) ==> Dead(tasks'[t].state))
  }

  lemma SlotInvMoves(s: Slot, tasks: map<nat, Task>, tasks': map<nat, Task>)
    requires SlotInv(s, tasks) && TasksMove(tasks, tasks')
    ensures SlotInv(s, tasks')
  {
  }

  /** A slot update that keeps or gives up the vector and the owner. */
  predicate Narrows(s: Slot, s': Slot) {
    && (s'.occupied ==> s.occupied && s'.vector == s.vector)
    && (s'.owner.Some? ==> s'.owner == s.owner)
  }

  lemma TableKept(slots: seq<Slot>, tasks: map<nat, Task>, i: nat, s': Slot, tasks': map<nat, Task>)
    requires TableInv(slots, tasks) && TasksMove(tasks, tasks') && i < |slots|
    requires Narrows(slots[i], s') && SlotInv(s', tasks')
    ensures TableInv(slots[i := s'], tasks')
  {
    var slots' := slots[i := s'];
    forall j | 0 <= j < |slots'| ensures SlotInv(slots'[j], tasks') {
      if j != i { SlotInvMoves(slots[j], tasks, tasks'); }
    }
  }

  /** The update leaves arming, line and entry alone. */
  predicate SameMask(s: Slot, s': Slot) {
    && s'.armed == s.armed
    && (s.armed ==>
          && s'.kind == s.kind && s'.vector == s.vector && s'.owner == s.owner
          && s'.lineWasMasked == s.lineWasMasked)
  }

  lemma MaskKept(slots: seq<Slot>, i: nat, s': Slot, pic: seq<bool>, pic0: seq<bool>, open: set<nat>)
    requires MaskInv(slots, pic, pic0, open) && i < |slots| && SameMask(slots[i], s')
    ensures MaskInv(slots[i := s'], pic, pic0, open)
  {
    var slots' := slots[i := s'];
    forall line | 0 <= line < PIC_LINES && (forall j :: 0 <= j < |slots'| ==> !OnLine(slots'[j], line))
      ensures pic[line] == pic0[line]
    {
      forall j | 0 <= j < |slots| ensures !OnLine(slots[j], line) {
        assert !OnLine(slots'[j], line);
      }
    }
    forall cap | cap in open ensures exists j :: 0 <= j < |slots'| && OpenBy(slots'[j], cap) {
      var j :| 0 <= j < |slots| && OpenBy(slots[j], cap);
      assert OpenBy(slots'[j], cap);
    }
  }

  lemma CountKept(slots: seq<Slot>, consumed: seq<nat>, taken: seq<nat>, i: nat, s': Slot, consumed': seq<nat>,
      taken': seq<nat>)
    requires CountInv(slots, consumed, taken) && i < |slots| && |consumed'| == |taken'| == |slots|
    requires forall j :: 0 <= j < |slots| && j != i ==> consumed'[j] == consumed[j] && taken'[j] == taken[j]
    requires s'.armed ==> taken'[i] <= consumed'[i] && s'.pending == (consumed'[i] - taken'[i]) % PENDING_MODULUS
    ensures CountInv(slots[i := s'], consumed', taken')
  {
  }

  lemma SleepKept(slots: seq<Slot>, tasks: map<nat, Task>, i: nat, s': Slot, tasks': map<nat, Task>)
    requires SleepInv(slots, tasks) && i < |slots|
    requires forall t :: t in tasks' && tasks'[t].state == Blocked ==>
             (t in tasks && tasks[t].state == Blocked) || s'.waiter == Some(t)
    requires slots[i].waiter.Some? && s'.waiter != slots[i].waiter ==>
               slots[i].waiter.value in tasks' ==> tasks'[slots[i].waiter.value].state != Blocked
    ensures SleepInv(slots[i := s'], tasks')
  {
    var slots' := slots[i := s'];
    forall t | t in tasks' && tasks'[t].state == Blocked
      ensures exists j :: 0 <= j < |slots'| && slots'[j].waiter == Some(t)
    {
      if s'.waiter == Some(t) {
        assert slots'[i].waiter == Some(t);
      } else {
        var j :| 0 <= j < |slots| && slots[j].waiter == Some(t);
        assert slots'[j].waiter == Some(t);
      }
    }
  }

  // ---- every step keeps the invariant ----

  lemma ClaimKeepsInv(s: Sys, vector: nat, threaded: bool)
    requires Inv(s)
    ensures Inv(Apply(s, Claims(vector, threaded)))
  {
    var (w', k) := Claim(s.w, vector, threaded);
    if k < |s.w.slots| {
      var s' := ClaimedSlot(vector);
      assert !s.w.slots[k].armed;
      MaskKept(s.w.slots, k, s', s.w.pic, s.pic0, s.w.open);
      SleepKept(s.w.slots, s.w.tasks, k, s', s.w.tasks);
    }
  }

  lemma BindKeepsTable(slots: seq<Slot>, tasks: map<nat, Task>, i: nat, cap: nat)
    requires TableInv(slots, tasks) && i < |slots| && slots[i].occupied && slots[i].owner.None?
    requires forall j :: 0 <= j < |slots| ==> slots[j].owner != Some(cap)
    ensures TableInv(slots[i := slots[i].(owner := Some(cap))], tasks)
  {
    assert SlotInv(slots[i], tasks);
  }

  lemma BindKeepsInv(s: Sys, i: nat, cap: nat)
    requires Inv(s)
    ensures Inv(Apply(s, Binds(i, cap)))
  {
    if i < |s.w.slots| && s.w.slots[i].occupied && s.w.slots[i].owner.None? && !Holding(s.w, cap) {
      var s' := s.w.slots[i].(owner := Some(cap));
      BindKeepsTable(s.w.slots, s.w.tasks, i, cap);
      MaskKept(s.w.slots, i, s', s.w.pic, s.pic0, s.w.open);
      SleepKept(s.w.slots, s.w.tasks, i, s', s.w.tasks);
    }
  }

  /** Giving a slot back restores the line or masks the entry, and touches no other line or entry. */
  lemma ClearKeepsMasks(w: World, i: nat, pic0: seq<bool>)
    requires TableInv(w.slots, w.tasks) && MaskInv(w.slots, w.pic, pic0, w.open) && i < |w.slots|
    ensures var w' := Disarm(w, w.slots[i]); MaskInv(w.slots[i := Cleared(w.slots[i])], w'.pic, pic0, w'.open)
  {
    var sl := w.slots[i];
    var w' := Disarm(w, sl);
    var slots' := w.slots[i := Cleared(sl)];
    assert SlotInv(sl, w.tasks);
    forall j, line | 0 <= j < |slots'| && 0 <= line < PIC_LINES && OnLine(slots'[j], line)
      ensures !w'.pic[line] && slots'[j].lineWasMasked == pic0[line]
    {
      assert OnLine(w.slots[j], line);
    }
    forall line | 0 <= line < PIC_LINES && (forall j :: 0 <= j < |slots'| ==> !OnLine(slots'[j], line))
      ensures w'.pic[line] == pic0[line]
    {
      if !OnLine(sl, line) {
        forall j | 0 <= j < |w.slots| ensures !OnLine(w.slots[j], line) { assert j != i ==> !OnLine(slots'[j], line); }
      }
    }
    forall cap | cap in w'.open ensures exists j :: 0 <= j < |slots'| && OpenBy(slots'[j], cap) {
      var j :| 0 <= j < |w.slots| && OpenBy(w.slots[j], cap);
      assert OpenBy(slots'[j], cap);
    }
    forall j, cap | 0 <= j < |slots'| && OpenBy(slots'[j], cap) ensures cap in w'.open {
      assert OpenBy(w.slots[j], cap);
    }
  }

  /** A slot is given back; if its waiter sleeps, it is woken. */
  lemma ClearKeepsInv(s: Sys, s': Sys, i: nat)
    requires Inv(s) && i < |s.w.slots| && s' == s.(w := s'.w)
    requires var d := Disarm(s.w, s.w.slots[i]);
             s'.w.slots == s.w.slots[i := Cleared(s.w.slots[i])] && s'.w.pic == d.pic && s'.w.open == d.open
    requires TasksMove(s.w.tasks, s'.w.tasks)
    requires forall t :: t in s'.w.tasks && s'.w.tasks[t].state == Blocked ==>
             t in s.w.tasks && s.w.tasks[t].state == Blocked
    requires s.w.slots[i].waiter.Some? && s.w.slots[i].waiter.value in s'.w.tasks ==>
             s'.w.tasks[s.w.slots[i].waiter.value].state != Blocked
    ensures Inv(s')
  {
    var sl := s.w.slots[i];
    assert SlotInv(sl, s.w.tasks) && SlotInv(Cleared(sl), s'.w.tasks);
    TableKept(s.w.slots, s.w.tasks, i, Cleared(sl), s'.w.tasks);
    ClearKeepsMasks(s.w, i, s.pic0);
    SleepKept(s.w.slots, s.w.tasks, i, Cleared(sl), s'.w.tasks);
  }

  lemma ReleaseKeepsInv(s: Sys, i: int, owner: Option<nat>)
    requires Inv(s)
    ensures Inv(s.(w := Release(s.w, i, owner).0))
  {
    var (w', ok) := Release(s.w, i, owner);
    if ok {
      assert SlotInv(s.w.slots[i], s.w.tasks);
      ClearKeepsInv(s, s.(w := w'), i);
    }
  }

  lemma DrainKeepsInv(s: Sys, i: nat, t: nat)
    requires Inv(s)
    ensures Inv(Apply(s, Drains(i, t)))
  {
    if i < |s.w.slots| && Gone(s.w, t) && s.w.slots[i].occupied && RefersTo(s.w.slots[i], t) {
      assert SlotInv(s.w.slots[i], s.w.tasks);
      ClearKeepsInv(s, Apply(s, Drains(i, t)), i);
    }
  }

  /** Arming opens exactly the slot's own line or entry and remembers the line's first mask. */
  lemma ArmKeepsMasks(w: World, i: nat, cap: nat, t: nat, mode: nat, pic0: seq<bool>)
    requires TableInv(w.slots, w.tasks) && MaskInv(w.slots, w.pic, pic0, w.open)
    requires t in w.tasks && i < |w.slots| && CanArm(w.slots[i], cap, w.slots[i].vector, mode)
    ensures var w' := Arm(w, i, cap, w.slots[i].vector, t, mode).0; MaskInv(w'.slots, w'.pic, pic0, w'.open)
  {
    var sl := w.slots[i];
    var w' := Arm(w, i, cap, sl.vector, t, mode).0;
    assert SlotInv(sl, w.tasks);
    forall j | 0 <= j < |w.slots| && w.slots[j].armed
      ensures w.slots[j].vector != sl.vector && w.slots[j].owner != sl.owner
    {
      assert SlotInv(w.slots[j], w.tasks);
    }
    forall j, line | 0 <= j < |w'.slots| && 0 <= line < PIC_LINES && OnLine(w'.slots[j], line)
      ensures !w'.pic[line] && w'.slots[j].lineWasMasked == pic0[line]
    {
      if j != i {
        assert OnLine(w.slots[j], line);
      } else {
        forall k | 0 <= k < |w.slots| ensures !OnLine(w.slots[k], line) {
          assert w.slots[k].armed ==> w.slots[k].vector != sl.vector;
        }
      }
    }
    forall line | 0 <= line < PIC_LINES && (forall j :: 0 <= j < |w'.slots| ==> !OnLine(w'.slots[j], line))
      ensures w'.pic[line] == pic0[line]
    {
      forall j | 0 <= j < |w.slots| ensures !OnLine(w.slots[j], line) { assert j != i ==> !OnLine(w'.slots[j], line); }
      assert !OnLine(w'.slots[i], line);
    }
    forall c | c in w'.open ensures exists j :: 0 <= j < |w'.slots| && OpenBy(w'.slots[j], c) {
      if c in w.open {
        var j :| 0 <= j < |w.slots| && OpenBy(w.slots[j], c);
        assert OpenBy(w'.slots[j], c);
      } else {
        assert OpenBy(w'.slots[i], c);
      }
    }
    forall j, c | 0 <= j < |w'.slots| && OpenBy(w'.slots[j], c) ensures c in w'.open {
      if j != i { assert OpenBy(w.slots[j], c); }
    }
  }

  lemma ArmedSlotInv(w: World, sl: Slot, cap: nat, t: nat, mode: nat)
    requires SlotInv(sl, w.tasks) && t in w.tasks && CanArm(sl, cap, sl.vector, mode)
    ensures SlotInv(ArmedSlot(sl, w.pic, t, w.tasks[t].gen, mode), w.tasks)
  {
  }

  lemma ArmedKeepsInv(s: Sys, s': Sys, i: nat, cap: nat, t: nat, mode: nat)
    requires Inv(s) && i < |s.w.slots| && t in s.w.tasks && CanArm(s.w.slots[i], cap, s.w.slots[i].vector, mode)
    requires s'.w == Arm(s.w, i, cap, s.w.slots[i].vector, t, mode).0 && s'.pic0 == s.pic0
    requires s'.consumed == s.consumed[i := 0] && s'.taken == s.taken[i := 0]
    ensures Inv(s')
  {
    var sl' := ArmedSlot(s.w.slots[i], s.w.pic, t, s.w.tasks[t].gen, mode);
    ArmedSlotInv(s.w, s.w.slots[i], cap, t, mode);
    TableKept(s.w.slots, s.w.tasks, i, sl', s.w.tasks);
    ArmKeepsMasks(s.w, i, cap, t, mode, s.pic0);
    CountKept(s.w.slots, s.consumed, s.taken, i, sl', s'.consumed, s'.taken);
    SleepKept(s.w.slots, s.w.tasks, i, sl', s.w.tasks);
  }

  lemma ArmKeepsInv(s: Sys, i: int, cap: nat, vector: nat, t: nat, mode: nat)
    requires Inv(s)
    ensures Inv(Apply(s, Arms(i, cap, vector, t, mode)))
  {
    if Runs(s.w, t) && Arm(s.w, i, cap, vector, t, mode).1 {
      ArmedKeepsInv(s, Apply(s, Arms(i, cap, vector, t, mode)), i, cap, t, mode);
    }
  }

  /** An update of the pending count and the waiter only. */
  lemma BookkeepingKeepsInv(s: Sys, s': Sys, i: nat, sl': Slot)
    requires Inv(s) && i < |s.w.slots|
    requires sl' == s.w.slots[i].(pending := sl'.pending, waiter := sl'.waiter, waiterGen := sl'.waiterGen)
    requires s'.w.slots == s.w.slots[i := sl'] && s'.w.pic == s.w.pic && s'.w.open == s.w.open
    requires s'.pic0 == s.pic0
    requires TasksMove(s.w.tasks, s'.w.tasks) && SlotInv(sl', s'.w.tasks)
    requires |s'.consumed| == |s'.taken| == |s.w.slots|
    requires forall j :: 0 <= j < |s.w.slots| && j != i ==> s'.consumed[j] == s.consumed[j] && s'.taken[j] == s.taken[j]
    requires sl'.armed ==>
               && s'.taken[i] <= s'.consumed[i]
               && sl'.pending == (s'.consumed[i] - s'.taken[i]) % PENDING_MODULUS
    requires forall t :: t in s'.w.tasks && s'.w.tasks[t].state == Blocked ==>
               (t in s.w.tasks && s.w.tasks[t].state == Blocked) || sl'.waiter == Some(t)
    requires s.w.slots[i].waiter.Some? && sl'.waiter != s.w.slots[i].waiter ==>
               s.w.slots[i].waiter.value in s'.w.tasks ==> s'.w.tasks[s.w.slots[i].waiter.value].state != Blocked
    ensures Inv(s')
  {
    TableKept(s.w.slots, s.w.tasks, i, sl', s'.w.tasks);
    MaskKept(s.w.slots, i, sl', s.w.pic, s.pic0, s.w.open);
    CountKept(s.w.slots, s.consumed, s.taken, i, sl', s'.consumed, s'.taken);
    SleepKept(s.w.slots, s.w.tasks, i, sl', s'.w.tasks);
  }

  lemma IsrKeepsInv(s: Sys, k: nat)
    requires Inv(s)
    ensures Inv(Apply(s, IsrLocks(k)))
  {
    if k < |s.inFlight| && s.inFlight[k].slot < |s.w.slots| {
      var i := s.inFlight[k].slot;
      var sl := s.w.slots[i];
      assert SlotInv(sl, s.w.tasks);
      var (w', hit) := Deliver(s.w, i, s.inFlight[k].vector);
      if hit && sl.mode == Wait {
        CountUp(s.consumed[i], s.taken[i], sl.pending);
        BookkeepingKeepsInv(s, Apply(s, IsrLocks(k)), i, w'.slots[i]);
      }
    }
  }

  lemma CountUp(consumed: nat, taken: nat, pending: nat)
    requires taken <= consumed && pending == (consumed - taken) % PENDING_MODULUS
    ensures (pending + 1) % PENDING_MODULUS == (consumed + 1 - taken) % PENDING_MODULUS
  {
  }

  lemma CountDown(consumed: nat, taken: nat, pending: nat)
    requires taken <= consumed && 0 < pending == (consumed - taken) % PENDING_MODULUS
    ensures taken + 1 <= consumed && pending - 1 == (consumed - (taken + 1)) % PENDING_MODULUS
  {
  }

  lemma EnterKeepsInv(s: Sys, i: nat, cap: nat, vector: nat, t: nat)
    requires Inv(s)
    ensures Inv(Apply(s, Enters(i, cap, vector, t)))
  {
    if i < |s.w.slots| && Runs(s.w, t) {
      var sl := s.w.slots[i];
      var (w', answer) := EnterWait(s.w, i, cap, vector, t);
      assert SlotInv(sl, s.w.tasks);
      if answer == Took { CountDown(s.consumed[i], s.taken[i], sl.pending); }
      if answer != Refused { BookkeepingKeepsInv(s, Apply(s, Enters(i, cap, vector, t)), i, w'.slots[i]); }
    }
  }

  lemma RollBackKeepsInv(s: Sys, i: nat, t: nat)
    requires Inv(s)
    ensures Inv(Apply(s, RollsBack(i, t)))
  {
    if i < |s.w.slots| && t in s.w.tasks && !Dead(s.w.tasks[t].state) {
      assert SlotInv(s.w.slots[i], s.w.tasks);
      BookkeepingKeepsInv(s, Apply(s, RollsBack(i, t)), i, Unregistered(s.w.slots[i], t));
    }
  }

  lemma ResumeKeepsInv(s: Sys, i: nat, cap: nat, vector: nat, t: nat)
    requires Inv(s)
    ensures Inv(Apply(s, Resumes(i, cap, vector, t)))
  {
    if i < |s.w.slots| && Runs(s.w, t) && CanWait(s.w.slots[i], cap, vector, t) {
      var sl := s.w.slots[i];
      var (w', took) := ResumeWait(s.w, i, cap, vector, t);
      assert SlotInv(sl, s.w.tasks);
      if took { CountDown(s.consumed[i], s.taken[i], sl.pending); }
      BookkeepingKeepsInv(s, Apply(s, Resumes(i, cap, vector, t)), i, w'.slots[i]);
    }
  }

  lemma TasksKeepInv(s: Sys, l: Label)
    requires Inv(s) && (l.Dies? || l.Recycles? || l.WokenElsewhere?)
    ensures Inv(Apply(s, l))
  {
    var s' := Apply(s, l);
    forall i | 0 <= i < |s.w.slots| ensures SlotInv(s.w.slots[i], s'.w.tasks) {
      assert SlotInv(s.w.slots[i], s.w.tasks);
    }
  }

  lemma StepKeepsInv(s: Sys, l: Label)
    requires Inv(s)
    ensures Inv(Apply(s, l))
  {
    match l
    case Claims(vector, threaded) => ClaimKeepsInv(s, vector, threaded);
    case Binds(i, cap) => BindKeepsInv(s, i, cap);
    case Abandons(i) => ReleaseKeepsInv(s, i, None);
    case Releases(i, cap) => ReleaseKeepsInv(s, i, Some(cap));
    case Arms(i, cap, vector, t, mode) => ArmKeepsInv(s, i, cap, vector, t, mode);
    case IsrFinds(_) =>
    case IsrLocks(k) => IsrKeepsInv(s, k);
    case Enters(i, cap, vector, t) => EnterKeepsInv(s, i, cap, vector, t);
    case RollsBack(i, t) => RollBackKeepsInv(s, i, t);
    case Resumes(i, cap, vector, t) => ResumeKeepsInv(s, i, cap, vector, t);
    case Drains(i, t) => DrainKeepsInv(s, i, t);
    case _ => TasksKeepInv(s, l);
  }

  lemma {:induction false} RunKeepsInv(s: Sys, labels: seq<Label>)
    requires Inv(s)
    ensures Inv(Run(s, labels))
  {
    if labels == [] {
    } else {
      var n := |labels| - 1;
      RunKeepsInv(s, labels[..n]);
      StepKeepsInv(Run(s, labels[..n]), labels[n]);
    }
  }

  lemma InitInv(pic0: seq<bool>)
    requires |pic0| == PIC_LINES
    ensures Inv(Init(pic0))
  {
  }
}
