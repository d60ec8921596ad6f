/** What the invariant of the delivery table means, for every reachable state and every run. */
module IrqTheorems {
  import opened Bytes
  import opened IrqTable
  import opened IrqRuns

  function Reached(pic0: seq<bool>, labels: seq<Label>): Sys {
    Run(Init(pic0), labels)
  }

  predicate Sized(s: Sys) {
    |s.w.slots| == |s.consumed| == |s.taken| == SLOTS && |s.w.pic| == PIC_LINES
  }

  /** Every interleaving keeps the table, mask, count, sleep and owner invariants. */
  lemma ReachedInv(pic0: seq<bool>, labels: seq<Label>)
    requires |pic0| == PIC_LINES
    ensures Inv(Reached(pic0, labels))
  {
    InitInv(pic0);
    RunKeepsInv(Init(pic0), labels);
  }

  /**
   * No wake-up is lost. A living task that sleeps in the wait call is registered in an armed slot with
   * nothing pending, in its present generation, so the next interrupt or release wakes it. The count of an
   * armed slot is what was consumed since arming and not yet taken, exactly as long as that fits 32 bits.
   */
  lemma NoLostWakeup(pic0: seq<bool>, labels: seq<Label>)
    requires |pic0| == PIC_LINES
    ensures var s := Reached(pic0, labels);
            && Sized(s)
            && (forall t :: t in s.w.tasks && s.w.tasks[t].state == Blocked ==>
                  exists i :: 0 <= i < SLOTS && s.w.slots[i].waiter == Some(t) && s.w.slots[i].armed
                              && s.w.slots[i].pending == 0
                                  && Alive(s.w.tasks, s.w.slots[i].waiter, s.w.slots[i].waiterGen))
            && (forall i :: 0 <= i < SLOTS && Alive(s.w.tasks, s.w.slots[i].waiter, s.w.slots[i].waiterGen) ==>
                  s.w.slots[i].pending == 0)
            && (forall i :: 0 <= i < SLOTS && s.w.slots[i].armed ==>
                  (s.taken[i] + s.w.slots[i].pending == s.consumed[i] <==>
                      s.consumed[i] < s.taken[i] + PENDING_MODULUS))
  {
    ReachedInv(pic0, labels);
    var s := Reached(pic0, labels);
    forall t | t in s.w.tasks && s.w.tasks[t].state == Blocked
      ensures exists i :: 0 <= i < SLOTS && s.w.slots[i].waiter == Some(t) && s.w.slots[i].armed
                          && s.w.slots[i].pending == 0 && Alive(s.w.tasks, s.w.slots[i].waiter, s.w.slots[i].waiterGen)
    {
      var i := SleeperRegistered(s, t);
    }
    forall i | 0 <= i < SLOTS && Alive(s.w.tasks, s.w.slots[i].waiter, s.w.slots[i].waiterGen)
      ensures s.w.slots[i].pending == 0
    {
      assert SlotInv(s.w.slots[i], s.w.tasks);
    }
    forall i | 0 <= i < SLOTS && s.w.slots[i].armed
      ensures s.taken[i] + s.w.slots[i].pending == s.consumed[i] <==> s.consumed[i] < s.taken[i] + PENDING_MODULUS
    {
      CountExact(s.consumed[i], s.taken[i], s.w.slots[i].pending);
    }
  }

  lemma SleeperRegistered(s: Sys, t: nat) returns (i: nat)
    requires Inv(s) && t in s.w.tasks && s.w.tasks[t].state == Blocked
    ensures i < SLOTS && s.w.slots[i].waiter == Some(t) && s.w.slots[i].armed && s.w.slots[i].pending == 0
    ensures Alive(s.w.tasks, s.w.slots[i].waiter, s.w.slots[i].waiterGen)
  {
    i :| 0 <= i < SLOTS && s.w.slots[i].waiter == Some(t);
    assert SlotInv(s.w.slots[i], s.w.tasks);
  }

  lemma CountExact(consumed: nat, taken: nat, pending: nat)
    requires taken <= consumed && pending == (consumed - taken) % PENDING_MODULUS
    ensures taken + pending == consumed <==> consumed < taken + PENDING_MODULUS
  {
  }

  /**
   * Masks are conserved: a line is unmasked while an armed slot holds its vector and otherwise has the mask
   * it had at the start, and an MSI-X entry is unmasked exactly while its owner's slot is armed.
   */
  lemma MasksConserved(pic0: seq<bool>, labels: seq<Label>, line: nat, cap: nat)
    requires |pic0| == PIC_LINES && line < PIC_LINES
    ensures var s := Reached(pic0, labels);
            && Sized(s)
            && s.w.pic[line] == (
                 && pic0[line]
                 && !exists i :: 0 <= i < SLOTS && s.w.slots[i].armed && s.w.slots[i].vector == 32 + line)
            && (cap in s.w.open <==>
                  exists i :: 0 <= i < SLOTS && s.w.slots[i].armed && s.w.slots[i].kind == Msix
                      && s.w.slots[i].owner == Some(cap))
  {
    ReachedInv(pic0, labels);
    SamePic0(Init(pic0), labels);
    var s := Reached(pic0, labels);
    forall i | 0 <= i < SLOTS && s.w.slots[i].armed && s.w.slots[i].vector == 32 + line
      ensures OnLine(s.w.slots[i], line)
    {
      assert SlotInv(s.w.slots[i], s.w.tasks);
    }
    assert forall i :: 0 <= i < SLOTS && OpenBy(s.w.slots[i], cap) ==>
             s.w.slots[i].armed && s.w.slots[i].kind == Msix && s.w.slots[i].owner == Some(cap);
  }

  lemma {:induction false} SamePic0(s: Sys, labels: seq<Label>)
    ensures Run(s, labels).pic0 == s.pic0
  {
    if labels == [] {
    } else {
      SamePic0(s, labels[..|labels| - 1]);
    }
  }

  /**
   * An interrupt is consumed exactly when the slot found earlier is, under the lock, still armed for that
   * very vector; then no other slot holds the vector and no other slot changes. A slot drained and claimed
   * again for another vector in between is left alone.
   */
  lemma DeliveryExact(s: Sys, k: nat)
    requires Inv(s) && k < |s.inFlight| && s.inFlight[k].slot < SLOTS
    ensures var f := s.inFlight[k];
            var s' := Apply(s, IsrLocks(k));
            var (w', hit) := Deliver(s.w, f.slot, f.vector);
            && (hit <==> s.w.slots[f.slot].armed && s.w.slots[f.slot].vector == f.vector)
            && (!hit ==> s'.w == s.w)
            && (hit ==> forall j :: 0 <= j < SLOTS && j != f.slot ==>
                          s'.w.slots[j] == s.w.slots[j] && !Holds(s.w.slots[j], f.vector))
            && (hit && s.w.slots[f.slot].mode == Notify ==> s'.w.slots == s.w.slots)
            && (hit && s.w.slots[f.slot].mode == Notify
                && Alive(s.w.tasks, s.w.slots[f.slot].recipient, s.w.slots[f.slot].recipientGen) ==>
                  s'.w.log == s.w.log + [Notified(s.w.slots[f.slot].recipient.value, s.w.slots[f.slot].recipientGen,
                      f.vector)])
            && (hit && s.w.slots[f.slot].mode == Wait
                && Alive(s.w.tasks, s.w.slots[f.slot].waiter, s.w.slots[f.slot].waiterGen) ==>
                  s'.w.slots[f.slot].pending == 1 && s'.w.slots[f.slot].waiter.None?
                  && s'.w.tasks[s.w.slots[f.slot].waiter.value].state == Ready)
  {
    assert SlotInv(s.w.slots[s.inFlight[k].slot], s.w.tasks);
  }

  // ---- dead and recycled tasks ----

  /** A task that is not alive in a generation becomes so exactly when a new task in its memory gets that generation. */
  lemma RevivedExactly(s: Sys, l: Label, t: nat, gen: nat)
    requires !Alive(s.w.tasks, Some(t), gen)
    ensures Alive(Apply(s, l).w.tasks, Some(t), gen) <==>
              l == Recycles(t) && (t in s.w.tasks ==> Dead(s.w.tasks[t].state)) && Clear(s.w, t)
                  && Generation(s.made) == gen
  {
  }

  /** Generations come back after exactly 2^32 tasks and not before. */
  lemma GenerationsRepeat(m: nat, n: nat)
    requires m < n <= m + GENERATIONS
    ensures Generation(m) == Generation(n) <==> n == m + GENERATIONS
  {
    var qm, qn := (m + 1) / GENERATIONS, (n + 1) / GENERATIONS;
    assert n - m == (qn - qm) * GENERATIONS + (Generation(n) - Generation(m));
  }

  lemma {:induction false} MadeGrows(s: Sys, labels: seq<Label>)
    ensures Run(s, labels).made >= s.made
  {
    if labels == [] {
      assert Run(s, labels) == s;
    } else {
      MadeGrows(s, labels[..|labels| - 1]);
    }
  }

  /**
   * Task number `born`, once not alive, never is again until its generation comes round, also not through
   * recycling of its memory.
   */
  lemma {:induction false} GenerationNotRevived(s: Sys, labels: seq<Label>, t: nat, born: nat)
    requires born < s.made && !Alive(s.w.tasks, Some(t), Generation(born))
    requires Run(s, labels).made <= born + GENERATIONS
    ensures !Alive(Run(s, labels).w.tasks, Some(t), Generation(born))
  {
    if labels == [] {
      assert Run(s, labels) == s;
    } else {
      var n := |labels| - 1;
      var prev := Run(s, labels[..n]);
      assert prev.made <= Run(s, labels).made;
      GenerationNotRevived(s, labels[..n], t, born);
      RevivedExactly(prev, labels[n], t, Generation(born));
      MadeGrows(s, labels[..n]);
      GenerationsRepeat(born, prev.made);
    }
  }

  /** Everything a step adds to the log concerns a task alive in the generation named. */
  ghost predicate EffectsOnLiving(w: World, w': World) {
    w.log <= w'.log && forall k :: |w.log| <= k < |w'.log| ==> Alive(w.tasks, Some(w'.log[k].task), w'.log[k].gen)
  }

  lemma WakingStepEffects(s: Sys, l: Label)
    requires l.Abandons? || l.Releases? || l.IsrLocks? || l.Drains?
    ensures EffectsOnLiving(s.w, Apply(s, l).w)
  {
  }

  /** The effects of one step, all on tasks alive in the generation the slot was registered with. */
  lemma StepEffects(s: Sys, l: Label)
    ensures EffectsOnLiving(s.w, Apply(s, l).w)
  {
    if l.Abandons? || l.Releases? || l.IsrLocks? || l.Drains? {
      WakingStepEffects(s, l);
    } else {
      assert Apply(s, l).w.log == s.w.log;
    }
  }

  /** Nor is it made ready or notified under that generation until then. */
  lemma {:induction false} GenerationNotWoken(s: Sys, labels: seq<Label>, t: nat, born: nat)
    requires born < s.made && !Alive(s.w.tasks, Some(t), Generation(born))
    requires Run(s, labels).made <= born + GENERATIONS
    ensures var s' := Run(s, labels);
            && s.w.log <= s'.w.log
            && forall k :: |s.w.log| <= k < |s'.w.log| ==>
                !(s'.w.log[k].task == t && s'.w.log[k].gen == Generation(born))
  {
    if labels == [] {
    } else {
      var n := |labels| - 1;
      var prev := Run(s, labels[..n]);
      assert prev.made <= Run(s, labels).made;
      GenerationNotWoken(s, labels[..n], t, born);
      GenerationNotRevived(s, labels[..n], t, born);
      StepEffects(prev, labels[n]);
    }
  }

  // ---- draining ----

  /** `drain_task` clears exactly the slots that refer to the task. */
  lemma {:induction false} DrainExact(w: World, t: nat, n: nat)
    requires TableInv(w.slots, w.tasks) && n <= SLOTS
    ensures var w' := Drain(w, t, n);
            forall i :: 0 <= i < SLOTS ==>
              w'.slots[i] == if i < n && RefersTo(w.slots[i], t) then Cleared(w.slots[i]) else w.slots[i]
    ensures n == SLOTS ==> Clear(Drain(w, t, n), t)
  {
    if n == 0 {
    } else {
      DrainExact(w, t, n - 1);
      assert SlotInv(w.slots[n - 1], w.tasks);
    }
  }

  lemma StaysGone(s: Sys, l: Label, t: nat)
    requires Gone(s.w, t) && l != Recycles(t)
    ensures Gone(Apply(s, l).w, t)
  {
  }

  /** Where a slot may get its task references from: it keeps or drops them, or takes those of a running task. */
  predicate RefersNoMore(w: World, sl: Slot, sl': Slot) {
    && (sl'.recipient == sl.recipient || sl'.recipient.None? || Runs(w, sl'.recipient.value))
    && (sl'.waiter == sl.waiter || sl'.waiter.None? || Runs(w, sl'.waiter.value))
  }

  lemma TableStepRefers(s: Sys, l: Label, i: nat)
    requires |s.w.slots| == SLOTS && i < SLOTS
    requires l.Claims? || l.Binds? || l.Abandons? || l.Releases? || l.Arms? || l.Drains?
    ensures |Apply(s, l).w.slots| == SLOTS && RefersNoMore(s.w, s.w.slots[i], Apply(s, l).w.slots[i])
  {
  }

  lemma OtherStepRefers(s: Sys, l: Label, i: nat)
    requires |s.w.slots| == SLOTS && i < SLOTS
    requires !(l.Claims? || l.Binds? || l.Abandons? || l.Releases? || l.Arms? || l.Drains?)
    ensures |Apply(s, l).w.slots| == SLOTS && RefersNoMore(s.w, s.w.slots[i], Apply(s, l).w.slots[i])
  {
  }

  /** A slot that does not refer to a dead task never comes to refer to it while the task is not recycled. */
  lemma StaysClear(s: Sys, l: Label, t: nat, i: nat)
    requires Inv(s) && Gone(s.w, t) && l != Recycles(t) && i < SLOTS
    ensures |Apply(s, l).w.slots| == SLOTS
    ensures !RefersTo(s.w.slots[i], t) || l == Drains(i, t) ==> !RefersTo(Apply(s, l).w.slots[i], t)
  {
    if l.Claims? || l.Binds? || l.Abandons? || l.Releases? || l.Arms? || l.Drains? {
      TableStepRefers(s, l, i);
    } else {
      OtherStepRefers(s, l, i);
    }
    assert SlotInv(s.w.slots[i], s.w.tasks);
  }

  lemma {:induction false} StaysGoneAlong(s: Sys, labels: seq<Label>, t: nat)
    requires Gone(s.w, t) && Recycles(t) !in labels
    ensures Gone(Run(s, labels).w, t)
  {
    if labels == [] {
    } else {
      var n := |labels| - 1;
      StaysGoneAlong(s, labels[..n], t);
      StaysGone(Run(s, labels[..n]), labels[n], t);
    }
  }

  /** One slot: visited for the dead task, or clear of it from the start. */
  lemma {:induction false} SlotDrained(s: Sys, labels: seq<Label>, t: nat, i: nat)
    requires Inv(s) && Gone(s.w, t) && Recycles(t) !in labels && i < SLOTS
    requires Drains(i, t) in labels || !RefersTo(s.w.slots[i], t)
    ensures |Run(s, labels).w.slots| == SLOTS && !RefersTo(Run(s, labels).w.slots[i], t)
  {
    if labels == [] {
    } else {
      var n := |labels| - 1;
      var before, last := labels[..n], labels[n];
      assert labels == before + [last];
      RunKeepsInv(s, before);
      StaysGoneAlong(s, before, t);
      StaysClear(Run(s, before), last, t, i);
      if last != Drains(i, t) {
        SlotDrained(s, before, t, i);
      }
    }
  }

  /**
   * Draining works under any interleaving: once every slot has been visited for a dead task, in any order
   * and with any other steps in between, no slot refers to the task.
   */
  lemma InterleavedDrain(s: Sys, labels: seq<Label>, t: nat)
    requires Inv(s) && Gone(s.w, t) && Recycles(t) !in labels
    requires forall i: nat :: i < SLOTS ==> Drains(i, t) in labels
    ensures Gone(Run(s, labels).w, t) && Clear(Run(s, labels).w, t)
  {
    StaysGoneAlong(s, labels, t);
    RunKeepsInv(s, labels);
    forall i: nat | i < SLOTS ensures !RefersTo(Run(s, labels).w.slots[i], t) {
      SlotDrained(s, labels, t, i);
    }
  }

  // ---- former owners ----

  lemma StepKeepsUnowned(s: Sys, l: Label, cap: nat)
    requires !Holding(s.w, cap) && !(l.Binds? && l.cap == cap)
    ensures !Holding(Apply(s, l).w, cap)
  {
    var s' := Apply(s, l);
    forall i | 0 <= i < |s'.w.slots| ensures s'.w.slots[i].owner != Some(cap) {
      assert |s'.w.slots| == |s.w.slots|;
      assert s.w.slots[i].owner != Some(cap);
    }
  }

  /**
   * A capability that has lost its slot does not get at one again while it is not bound anew: after any
   * drains, releases and claims by others, arming or releasing with it, under any index and vector, fails and
   * changes nothing.
   */
  lemma {:induction false} FormerOwnerIsPowerless(s: Sys, labels: seq<Label>, cap: nat, i: int, vector: nat, t: nat,
      mode: nat)
    requires !Holding(s.w, cap) && forall k :: 0 <= k < |labels| ==> !(labels[k].Binds? && labels[k].cap == cap)
    ensures var w := Run(s, labels).w;
            && !Holding(w, cap)
            && Release(w, i, Some(cap)) == (w, false)
            && (t in w.tasks ==> Arm(w, i, cap, vector, t, mode) == (w, false))
  {
    if labels == [] {
      assert Run(s, labels) == s;
    } else {
      var n := |labels| - 1;
      FormerOwnerIsPowerless(s, labels[..n], cap, i, vector, t, mode);
      StepKeepsUnowned(Run(s, labels[..n]), labels[n], cap);
    }
    var w := Run(s, labels).w;
    if 0 <= i < |w.slots| { assert w.slots[i].owner != Some(cap); }
  }

  // ---- releasing without an owner ----

  /**
   * `release_slot_idx` without an owner releases whatever slot the index names. It leaves every owned slot
   * alone exactly when the index is out of range, or the slot is free or has no owner.
   */
  lemma NullReleaseExact(s: Sys, i: int)
    requires Inv(s)
    ensures var w' := Release(s.w, i, None).0;
            (forall j :: 0 <= j < SLOTS && s.w.slots[j].owner.Some? ==> w'.slots[j] == s.w.slots[j])
            <==> !(0 <= i < SLOTS) || !s.w.slots[i].occupied || s.w.slots[i].owner.None?
  {
    var w' := Release(s.w, i, None).0;
    if 0 <= i < SLOTS && s.w.slots[i].occupied && s.w.slots[i].owner.Some? {
      assert w'.slots[i] == Cleared(s.w.slots[i]) != s.w.slots[i];
    }
  }

  /** Task 3 is set up, claims vector 40 through capability 7, arms it and sleeps in the wait call. */
  function Sleeping(): seq<Label> {
    [Recycles(3), Claims(40, false), Binds(0, 7), Arms(0, 7, 40, 3, 0), Enters(0, 7, 40, 3)]
  }

  lemma SleepingReached(pic0: seq<bool>)
    requires |pic0| == PIC_LINES
    ensures var s := Reached(pic0, Sleeping());
            && |s.w.slots| == SLOTS && s.w.slots[0].armed && s.w.slots[0].owner == Some(7)
            && s.w.slots[0].mode == Wait && s.w.slots[0].waiter == Some(3)
            && 3 in s.w.tasks && s.w.tasks[3] == Task(Blocked, 1) && s.w.slots[0].waiterGen == 1
  {
    FiveSteps(Init(pic0), Sleeping());
    ArmedReached(pic0);
  }

  lemma ClaimedReached(pic0: seq<bool>)
    requires |pic0| == PIC_LINES
    ensures var s := Apply(Apply(Apply(Init(pic0), Recycles(3)), Claims(40, false)), Binds(0, 7));
            s.w.tasks == map[3 := Task(Ready, 1)] && |s.w.slots| == SLOTS
                && s.w.slots[0] == ClaimedSlot(40).(owner := Some(7))
  {
    var s1 := Apply(Init(pic0), Recycles(3));
    var s2 := Apply(s1, Claims(40, false));
    assert FirstFree(s1.w.slots, 0) == 0 && s2.w.slots[0] == ClaimedSlot(40);
  }

  lemma ArmedReached(pic0: seq<bool>)
    requires |pic0| == PIC_LINES
    ensures var s := Apply(Apply(Apply(Init(pic0), Recycles(3)), Claims(40, false)), Binds(0, 7));
            var s' := Apply(Apply(s, Arms(0, 7, 40, 3, 0)), Enters(0, 7, 40, 3));
            && |s'.w.slots| == SLOTS && s'.w.slots[0].armed && s'.w.slots[0].owner == Some(7)
            && s'.w.slots[0].mode == Wait && s'.w.slots[0].waiter == Some(3)
            && 3 in s'.w.tasks && s'.w.tasks[3] == Task(Blocked, 1) && s'.w.slots[0].waiterGen == 1
  {
    ClaimedReached(pic0);
  }

  lemma FiveSteps(s: Sys, l: seq<Label>)
    requires |l| == 5
    ensures Run(s, l) == Apply(Apply(Apply(Apply(Apply(s, l[0]), l[1]), l[2]), l[3]), l[4])
  {
    assert l[..4][..3] == l[..3] && l[..3][..2] == l[..2] && l[..2][..1] == l[..1] && l[..1][..0] == [];
    assert Run(s, l[..1]) == Apply(s, l[0]);
    assert Run(s, l[..2]) == Apply(Run(s, l[..1]), l[1]);
    assert Run(s, l[..3]) == Apply(Run(s, l[..2]), l[2]);
    assert Run(s, l[..4]) == Apply(Run(s, l[..3]), l[3]);
  }

  /** Another capability's armed slot, with a sleeping waiter, is released and the waiter woken. */
  lemma NullReleaseExample(pic0: seq<bool>)
    requires |pic0| == PIC_LINES
    ensures var s := Reached(pic0, Sleeping());
            var (w', ok) := Release(s.w, 0, None);
            && Inv(s) && s.w.slots[0].armed && s.w.slots[0].owner == Some(7)
            && 3 in s.w.tasks && s.w.tasks[3].state == Blocked
            && ok && w'.slots[0] == Cleared(s.w.slots[0]) && 3 in w'.tasks && w'.tasks[3].state == Ready
            && w'.log == s.w.log + [MadeReady(3, 1)]
  {
    ReachedInv(pic0, Sleeping());
    SleepingReached(pic0);
  }

  // ---- binding an owner outside the create path ----

  /**
   * `set_slot_owner` itself checks nothing but occupancy. It keeps the table and the masks exactly when the
   * slot is free, or the new owner holds no other slot and an armed slot gets an owner, the same one if its
   * MSI-X entry is unmasked.
   */
  lemma SetOwnerExact(s: Sys, i: nat, owner: Option<nat>)
    requires Inv(s) && i < SLOTS
    ensures var w' := SetOwner(s.w, i, owner);
            var sl := s.w.slots[i];
            TableInv(w'.slots, w'.tasks) && MaskInv(w'.slots, w'.pic, s.pic0, w'.open)
            <==> (!sl.occupied
                  || (&& (owner.Some? ==> forall j :: 0 <= j < SLOTS && j != i ==> s.w.slots[j].owner != owner)
                      && (sl.armed ==> owner.Some?)
                      && (sl.armed && sl.kind == Msix ==> owner == sl.owner)))
  {
    var w' := SetOwner(s.w, i, owner);
    var sl := s.w.slots[i];
    var sl' := sl.(owner := owner);
    assert SlotInv(sl, s.w.tasks);
    if sl.occupied {
      assert w'.slots[i] == sl';
      if owner.Some? && exists j :: 0 <= j < SLOTS && j != i && s.w.slots[j].owner == owner {
        var j :| 0 <= j < SLOTS && j != i && s.w.slots[j].owner == owner;
        assert w'.slots[j].owner == w'.slots[i].owner;
      } else if sl.armed && owner.None? {
        assert !SlotInv(sl', s.w.tasks);
      } else if sl.armed && sl.kind == Msix && owner != sl.owner {
        OtherEntryStaysOpen(s, i, owner);
      } else {
        assert SlotInv(sl', s.w.tasks);
        if sl.armed && sl.kind == Pic {
          PicOwnerFree(s, i, sl');
        } else {
          MaskKept(s.w.slots, i, sl', s.w.pic, s.pic0, s.w.open);
        }
      }
    }
  }

  /** Taking the owner from an armed slot, in a reachable state, leaves an armed slot that nobody owns. */
  lemma SetOwnerExample(pic0: seq<bool>)
    requires |pic0| == PIC_LINES
    ensures var s := Reached(pic0, Sleeping());
            var w' := SetOwner(s.w, 0, None);
            && Inv(s) && |w'.slots| == SLOTS && w'.slots[0].armed && w'.slots[0].owner.None?
            && !TableInv(w'.slots, w'.tasks)
  {
    ReachedInv(pic0, Sleeping());
    SleepingReached(pic0);
    var s := Reached(pic0, Sleeping());
    assert SlotInv(s.w.slots[0], s.w.tasks);
    assert !SlotInv(SetOwner(s.w, 0, None).slots[0], s.w.tasks);
  }

  lemma OtherEntryStaysOpen(s: Sys, i: nat, owner: Option<nat>)
    requires Inv(s) && i < SLOTS && s.w.slots[i].owner.Some? && OpenBy(s.w.slots[i], s.w.slots[i].owner.value)
             && owner != s.w.slots[i].owner
    ensures !MaskInv(s.w.slots[i := s.w.slots[i].(owner := owner)], s.w.pic, s.pic0, s.w.open)
  {
    var slots' := s.w.slots[i := s.w.slots[i].(owner := owner)];
    var cap := s.w.slots[i].owner.value;
    assert cap in s.w.open;
    forall j | 0 <= j < SLOTS ensures !OpenBy(slots'[j], cap) {
      assert j != i ==> s.w.slots[j].owner != s.w.slots[i].owner;
    }
  }

  lemma PicOwnerFree(s: Sys, i: nat, sl': Slot)
    requires Inv(s) && i < SLOTS && s.w.slots[i].armed && s.w.slots[i].kind == Pic
             && sl' == s.w.slots[i].(owner := sl'.owner)
    ensures MaskInv(s.w.slots[i := sl'], s.w.pic, s.pic0, s.w.open)
  {
    var slots' := s.w.slots[i := sl'];
    assert forall j, line :: 0 <= j < SLOTS ==> OnLine(slots'[j], line) == OnLine(s.w.slots[j], line);
    assert forall j, cap :: 0 <= j < SLOTS ==> OpenBy(slots'[j], cap) == OpenBy(s.w.slots[j], cap);
  }
}
