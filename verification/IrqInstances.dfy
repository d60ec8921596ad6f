/**
 * Which task instance an interrupt reaches. An address and a generation number may come back; an instance is one
 * life of a task, from the step that sets it up to the step that reuses its memory.
 */
module IrqInstances {
  import opened Bytes
  import opened IrqTable
  import opened IrqRuns
  import opened IrqTheorems

  /** The state of a run before step `k`. */
  function At(pic0: seq<bool>, labels: seq<Label>, k: nat): Sys
    requires k <= |labels|
  {
    Reached(pic0, labels[..k])
  }

  lemma NextAt(pic0: seq<bool>, labels: seq<Label>, k: nat)
    requires k < |labels|
    ensures At(pic0, labels, k + 1) == Apply(At(pic0, labels, k), labels[k])
  {
    assert labels[..k + 1][..k] == labels[..k];
  }

  lemma InvAt(pic0: seq<bool>, labels: seq<Label>, k: nat)
    requires |pic0| == PIC_LINES && k <= |labels|
    ensures Inv(At(pic0, labels, k))
  {
    ReachedInv(pic0, labels[..k]);
  }

  /** The step begins a new life at the address `t`. */
  predicate SetsUp(s: Sys, l: Label, t: nat) {
    l == Recycles(t) && (t in s.w.tasks ==> Dead(s.w.tasks[t].state)) && Clear(s.w, t)
  }

  /** The running task `t` arms slot `i`. */
  predicate Registers(s: Sys, l: Label, t: nat, i: nat) {
    l.Arms? && l.task == t && l.idx == i && Runs(s.w, t) && Arm(s.w, l.idx, l.cap, l.vector, t, l.mode).1
  }

  /** From step `p` up to step `j` the address `t` belongs to the same instance. */
  ghost predicate SameInstance(pic0: seq<bool>, labels: seq<Label>, p: nat, j: nat, t: nat)
    requires j <= |labels|
  {
    forall q: nat :: p <= q < j ==> !SetsUp(At(pic0, labels, q), labels[q], t)
  }

  /** Before step `j`, the instance now at the address `t` armed slot `i` in step `p`. */
  ghost predicate RegisteredIn(pic0: seq<bool>, labels: seq<Label>, t: nat, i: nat, j: nat, p: nat)
    requires j <= |labels|
  {
    p < j && Registers(At(pic0, labels, p), labels[p], t, i) && SameInstance(pic0, labels, p, j, t)
  }

  // ---- where registrations come from ----

  lemma TableStepRecipient(s: Sys, l: Label, i: nat, t: nat)
    requires |s.w.slots| == SLOTS && i < SLOTS
    requires l.Claims? || l.Binds? || l.Abandons? || l.Releases? || l.Arms? || l.Drains?
    requires |Apply(s, l).w.slots| == SLOTS && Apply(s, l).w.slots[i].recipient == Some(t)
    ensures s.w.slots[i].recipient == Some(t) || Registers(s, l, t, i)
  {
  }

  lemma OtherStepRecipient(s: Sys, l: Label, i: nat, t: nat)
    requires |s.w.slots| == SLOTS && i < SLOTS
    requires !(l.Claims? || l.Binds? || l.Abandons? || l.Releases? || l.Arms? || l.Drains?)
    requires |Apply(s, l).w.slots| == SLOTS && Apply(s, l).w.slots[i].recipient == Some(t)
    ensures s.w.slots[i].recipient == Some(t)
  {
  }

  /** Only arming makes a task the recipient of a slot. */
  lemma RecipientFrom(s: Sys, l: Label, i: nat, t: nat)
    requires |s.w.slots| == SLOTS && i < SLOTS
    requires |Apply(s, l).w.slots| == SLOTS && Apply(s, l).w.slots[i].recipient == Some(t)
    ensures s.w.slots[i].recipient == Some(t) || Registers(s, l, t, i)
  {
    if l.Claims? || l.Binds? || l.Abandons? || l.Releases? || l.Arms? || l.Drains? {
      TableStepRecipient(s, l, i, t);
    } else {
      OtherStepRecipient(s, l, i, t);
    }
  }

  /** Memory that a slot refers to is not reused. */
  lemma RecipientNotReused(s: Sys, l: Label, i: nat, t: nat)
    requires i < |s.w.slots| && s.w.slots[i].recipient == Some(t)
    ensures !SetsUp(s, l, t)
  {
  }

  ghost predicate Registered(pic0: seq<bool>, labels: seq<Label>, t: nat, i: nat, j: nat)
    requires j <= |labels|
  {
    exists p: nat :: RegisteredIn(pic0, labels, t, i, j, p)
  }

  predicate IsRecipient(pic0: seq<bool>, labels: seq<Label>, t: nat, i: nat, j: nat)
    requires j <= |labels|
  {
    var slots := At(pic0, labels, j).w.slots;
    i < |slots| && slots[i].recipient == Some(t)
  }

  lemma StartsUnregistered(pic0: seq<bool>, labels: seq<Label>, t: nat, i: nat)
    ensures !IsRecipient(pic0, labels, t, i, 0)
  {
    assert labels[..0] == [];
  }

  lemma StaysRegistered(pic0: seq<bool>, labels: seq<Label>, t: nat, i: nat, j: nat, p: nat)
    requires j < |labels| && RegisteredIn(pic0, labels, t, i, j, p) && !SetsUp(At(pic0, labels, j), labels[j], t)
    ensures RegisteredIn(pic0, labels, t, i, j + 1, p)
  {
  }

  lemma NewlyRegistered(pic0: seq<bool>, labels: seq<Label>, t: nat, i: nat, j: nat)
    requires j < |labels| && Registers(At(pic0, labels, j), labels[j], t, i)
    ensures RegisteredIn(pic0, labels, t, i, j + 1, j)
  {
  }

  lemma StepRegistered(pic0: seq<bool>, labels: seq<Label>, t: nat, i: nat, j: nat)
    requires |pic0| == PIC_LINES && j < |labels| && IsRecipient(pic0, labels, t, i, j + 1)
    requires IsRecipient(pic0, labels, t, i, j) ==> Registered(pic0, labels, t, i, j)
    ensures Registered(pic0, labels, t, i, j + 1)
  {
    var s := At(pic0, labels, j);
    InvAt(pic0, labels, j);
    InvAt(pic0, labels, j + 1);
    NextAt(pic0, labels, j);
    RecipientFrom(s, labels[j], i, t);
    if s.w.slots[i].recipient == Some(t) {
      var p: nat :| RegisteredIn(pic0, labels, t, i, j, p);
      RecipientNotReused(s, labels[j], i, t);
      StaysRegistered(pic0, labels, t, i, j, p);
    } else {
      NewlyRegistered(pic0, labels, t, i, j);
    }
  }

  /** The recipient of a slot, in every reachable state, is the very instance that armed the slot. */
  lemma {:induction false} RecipientRegistered(pic0: seq<bool>, labels: seq<Label>, t: nat, i: nat, j: nat)
    requires |pic0| == PIC_LINES && j <= |labels|
    ensures IsRecipient(pic0, labels, t, i, j) ==> Registered(pic0, labels, t, i, j)
    decreases j
  {
    if j == 0 {
      StartsUnregistered(pic0, labels, t, i);
    } else {
      RecipientRegistered(pic0, labels, t, i, j - 1);
      if IsRecipient(pic0, labels, t, i, j) { StepRegistered(pic0, labels, t, i, j - 1); }
    }
  }

  // ---- where effects go ----

  /** An effect goes to a live task that a slot refers to. */
  ghost predicate FromSlot(s: Sys, e: Effect, i: nat) {
    && i < |s.w.slots| && RefersTo(s.w.slots[i], e.task)
    && Alive(s.w.tasks, Some(e.task), e.gen)
  }

  lemma IsrEffects(s: Sys, l: Label, k: nat)
    requires l.IsrLocks? && |s.w.log| <= k < |Apply(s, l).w.log|
    ensures exists i: nat :: FromSlot(s, Apply(s, l).w.log[k], i)
  {
    var i := s.inFlight[l.k].slot;
    assert FromSlot(s, Apply(s, l).w.log[k], i);
  }

  lemma ReleaseEffects(s: Sys, l: Label, k: nat)
    requires l.Releases? || l.Abandons?
    requires |s.w.log| <= k < |Apply(s, l).w.log|
    ensures exists i: nat :: FromSlot(s, Apply(s, l).w.log[k], i)
  {
    var i: nat := if l.Releases? then l.idx else l.slot;
    assert FromSlot(s, Apply(s, l).w.log[k], i);
  }

  lemma DrainEffects(s: Sys, l: Label, k: nat)
    requires l.Drains? && |s.w.log| <= k < |Apply(s, l).w.log|
    ensures exists i: nat :: FromSlot(s, Apply(s, l).w.log[k], i)
  {
    assert FromSlot(s, Apply(s, l).w.log[k], l.slot);
  }

  lemma EffectFrom(s: Sys, l: Label, k: nat) returns (i: nat)
    requires |s.w.log| <= k < |Apply(s, l).w.log|
    ensures FromSlot(s, Apply(s, l).w.log[k], i)
  {
    if l.IsrLocks? {
      IsrEffects(s, l, k);
    } else if l.Releases? || l.Abandons? {
      ReleaseEffects(s, l, k);
    } else {
      DrainEffects(s, l, k);
    }
    i :| FromSlot(s, Apply(s, l).w.log[k], i);
  }

  /** Entry `k` of the log is written in step `j`. */
  predicate WrittenIn(pic0: seq<bool>, labels: seq<Label>, j: nat, k: nat) {
    j < |labels| && |At(pic0, labels, j).w.log| <= k < |At(pic0, labels, j + 1).w.log|
  }

  /**
   * In every run, whatever number of tasks it sets up: everything that makes a task ready or notifies it goes to
   * the very instance that armed the slot, and that instance is alive.
   */
  lemma EffectsReachRegistrant(pic0: seq<bool>, labels: seq<Label>, j: nat, k: nat) returns (i: nat, p: nat)
    requires |pic0| == PIC_LINES && WrittenIn(pic0, labels, j, k)
    ensures var e := At(pic0, labels, j + 1).w.log[k];
            && i < SLOTS && RegisteredIn(pic0, labels, e.task, i, j, p)
            && Alive(At(pic0, labels, j).w.tasks, Some(e.task), e.gen)
  {
    var s := At(pic0, labels, j);
    NextAt(pic0, labels, j);
    InvAt(pic0, labels, j);
    i := EffectFrom(s, labels[j], k);
    assert SlotInv(s.w.slots[i], s.w.tasks);
    var t := At(pic0, labels, j + 1).w.log[k].task;
    RecipientRegistered(pic0, labels, t, i, j);
    p :| RegisteredIn(pic0, labels, t, i, j, p);
  }

  // ---- the dead ----

  lemma StaysGoneUnlessSetUp(s: Sys, l: Label, t: nat)
    requires Gone(s.w, t) && !SetsUp(s, l, t)
    ensures Gone(Apply(s, l).w, t)
  {
    if l != Recycles(t) { StaysGone(s, l, t); }
  }

  /** A dead instance stays dead until its memory is reused. */
  lemma {:induction false} NeverRevived(pic0: seq<bool>, labels: seq<Label>, d: nat, j: nat, t: nat)
    requires d <= j <= |labels| && Gone(At(pic0, labels, d).w, t)
    ensures SameInstance(pic0, labels, d, j, t) ==> Gone(At(pic0, labels, j).w, t)
    decreases j
  {
    if j == d {
    } else {
      NeverRevived(pic0, labels, d, j - 1, t);
      if SameInstance(pic0, labels, d, j, t) { OneMoreStepGone(pic0, labels, d, j - 1, t); }
    }
  }

  lemma OneMoreStepGone(pic0: seq<bool>, labels: seq<Label>, d: nat, j: nat, t: nat)
    requires d <= j < |labels| && SameInstance(pic0, labels, d, j + 1, t)
    requires SameInstance(pic0, labels, d, j, t) ==> Gone(At(pic0, labels, j).w, t)
    ensures Gone(At(pic0, labels, j + 1).w, t)
  {
    assert SameInstance(pic0, labels, d, j, t);
    NextAt(pic0, labels, j);
    StaysGoneUnlessSetUp(At(pic0, labels, j), labels[j], t);
  }

  /** Between a death and a later step of a task at the same address, its memory was reused. */
  lemma SetUpBetween(pic0: seq<bool>, labels: seq<Label>, d: nat, p: nat, t: nat) returns (q: nat)
    requires d <= p <= |labels| && Gone(At(pic0, labels, d).w, t) && !Gone(At(pic0, labels, p).w, t)
    ensures d <= q < p && SetsUp(At(pic0, labels, q), labels[q], t)
  {
    NeverRevived(pic0, labels, d, p, t);
    q :| d <= q < p && SetsUp(At(pic0, labels, q), labels[q], t);
  }

  /** What an instance registered before its death is not there after the death, or the memory was reused since. */
  lemma RegisteredAfterDeath(pic0: seq<bool>, labels: seq<Label>, d: nat, t: nat, i: nat, j: nat, p: nat)
    requires d <= j <= |labels| && Gone(At(pic0, labels, d).w, t) && !Gone(At(pic0, labels, j).w, t)
    requires RegisteredIn(pic0, labels, t, i, j, p)
    ensures d < p
  {
    var q := SetUpBetween(pic0, labels, d, j, t);
    assert q < p;
  }

  /**
   * A dead task is never made ready or notified, in any run of any length: an effect on its address after its
   * death goes to an instance that was set up after the death and has armed a slot itself.
   */
  lemma DeadNeverWoken(pic0: seq<bool>, labels: seq<Label>, d: nat, j: nat, k: nat, t: nat)
    returns (q: nat, i: nat, p: nat)
    requires |pic0| == PIC_LINES && WrittenIn(pic0, labels, j, k) && At(pic0, labels, j + 1).w.log[k].task == t
    requires d <= j && Gone(At(pic0, labels, d).w, t)
    ensures d <= q < p < j && SetsUp(At(pic0, labels, q), labels[q], t)
    ensures i < SLOTS && RegisteredIn(pic0, labels, t, i, j, p)
  {
    i, p := EffectsReachRegistrant(pic0, labels, j, k);
    RegisteredAfterDeath(pic0, labels, d, t, i, j, p);
    q := SetUpBetween(pic0, labels, d, p, t);
  }
}
