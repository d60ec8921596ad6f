/**
 * Lazy switching of the floating-point registers on one x86_64 CPU: a task switch only arms a trap, and the
 * trap handler saves the registers of their last owner and loads those of the running task.
 */
module LazyFpu {
  import opened Bytes

  /**
   * The contents of the register file: control words, and the data registers. `RESET` is what a task should
   * find at its first use.
   */
  datatype Regs = Regs(control: nat, data: nat)

  const RESET := Regs(0, 0)

  /** The instructions of a first use set the control words and leave the data registers alone. */
  function Initialised(r: Regs): Regs {
    r.(control := RESET.control)
  }

  /**
   * The CPU and the tasks: whether the trap is armed, whose contents the registers hold, the running task,
   * the save area of each task and the tasks that have used the registers before.
   */
  datatype Lazy = Lazy(trap: bool, owner: Option<nat>, current: Option<nat>, regs: Regs, saved: map<nat, Regs>,
      used: set<nat>)

  datatype Event =
    | Switch(task: nat)
    | ArmTrap
    | Use(value: Regs)
    | Clone(parent: nat, child: nat)
    | Create(task: nat)

  function Area(saved: map<nat, Regs>, t: nat): Regs {
    if t in saved then saved[t] else RESET
  }

  /** The trap handler for running task `t`. When `t` already owns the registers they are left alone. */
  function Trapped(l: Lazy, t: nat): Lazy {
    var l1 := l.(trap := false);
    if l.owner == Some(t) then l1
    else
      var l2 := if l.owner.Some? then l1.(saved := l.saved[l.owner.value := l.regs]) else l1;
      l2.(owner := Some(t), used := l.used + {t},
          regs := if t in l.used then Area(l2.saved, t) else Initialised(l.regs))
  }

  /** One event, and the register contents a use finds. A use with no running task stops the kernel. */
  function Apply(l: Lazy, e: Event): (Lazy, Option<Regs>) {
    match e
    case Switch(t) => (l.(current := Some(t), trap := true), None)
    case ArmTrap => (l.(trap := true), None)
    case Use(v) =>
      if l.current.None? then (l, None)
      else
        var l1 := if l.trap then Trapped(l, l.current.value) else l;
        (l1.(regs := v), Some(l1.regs))
    case Clone(p, c) =>
      var saved1 := if l.owner == Some(p) then l.saved[p := l.regs] else l.saved;
      (l.(saved := if p in l.used then saved1[c := Area(saved1, p)] else saved1,
          used := if p in l.used then l.used + {c} else l.used - {c}), None)
    case Create(t) => (l.(used := l.used - {t}), None)
  }

  /**
   * The trap: a switch arms it, so does arming it by hand, a use by a running task leaves it disarmed, and nothing else
   * touches it. So the next use of the same task finds what it left and saves and loads nothing.
   */
  lemma OneTrapPerTurn(l: Lazy, e: Event, v: Regs, w: Regs)
    ensures Apply(l, e).0.trap == match e
                                  case Switch(_) => true
                                  case ArmTrap => true
                                  case Use(_) => l.current.None? && l.trap
                                  case _ => l.trap
    ensures l.current.Some? ==>
              var l1 := Apply(l, Use(v)).0;
              Apply(l1, Use(w)) == (l1.(regs := w), Some(v))
  {
  }

  /** The kernel's view of the registers, updated in place. */
  class Cpu {
    var trap: bool
    var owner: Option<nat>
    var current: Option<nat>
    var regs: Regs
    var saved: map<nat, Regs>
    var used: set<nat>

    ghost function State(): Lazy
      reads this
    {
      Lazy(trap, owner, current, regs, saved, used)
    }

    constructor ()
      ensures State() == BOOT
    {
      trap, owner, current, regs, saved, used := true, None, None, RESET, map[], {};
    }

    method HandleTrap(t: nat)
      requires current == Some(t)
      modifies this
      ensures State() == Trapped(old(State()), t)
    {
      trap := false;
      if owner.Some? && owner != Some(t) {
        saved := saved[owner.value := regs];
      }
      if owner == Some(t) { return; }
      if t in used {
        regs := Area(saved, t);
      } else {
        regs := Initialised(regs);
        used := used + {t};
      }
      owner := Some(t);
    }

    /** The running task reads the registers and then leaves `v` in them. */
    method UseRegisters(v: Regs) returns (found: Regs)
      requires current.Some?
      modifies this
      ensures (State(), Some(found)) == Apply(old(State()), Use(v))
    {
      if trap { HandleTrap(current.value); }
      found := regs;
      regs := v;
    }

    method SwitchTo(t: nat)
      modifies this
      ensures State() == Apply(old(State()), Switch(t)).0
    {
      current := Some(t);
      trap := true;
    }

    method CloneTask(p: nat, c: nat)
      modifies this
      ensures State() == Apply(old(State()), Clone(p, c)).0
    {
      if owner == Some(p) { saved := saved[p := regs]; }
      if p in used {
        used := used + {c};
        saved := saved[c := Area(saved, p)];
      } else {
        used := used - {c};
      }
    }

    method CreateTask(t: nat)
      modifies this
      ensures State() == Apply(old(State()), Create(t)).0
    {
      used := used - {t};
    }

    method Handle(e: Event) returns (found: Option<Regs>)
      modifies this
      ensures (State(), found) == Apply(old(State()), e)
    {
      found := None;
      match e
      case Switch(t) => SwitchTo(t);
      case ArmTrap => trap := true;
      case Use(v) =>
        if current.Some? {
          var f := UseRegisters(v);
          found := Some(f);
        }
      case Clone(p, c) => CloneTask(p, c);
      case Create(t) => CreateTask(t);
    }
  }

  const BOOT := Lazy(true, None, None, RESET, map[], {})

  // ---- eager switching ----

  /** Every task has its own registers. */
  datatype Eager = Eager(current: Option<nat>, contents: map<nat, Regs>)

  function ApplyEager(s: Eager, e: Event): (Eager, Option<Regs>) {
    match e
    case Switch(t) => (s.(current := Some(t)), None)
    case ArmTrap => (s, None)
    case Use(v) =>
      if s.current.None? then (s, None)
      else (s.(contents := s.contents[s.current.value := v]), Some(Area(s.contents, s.current.value)))
    case Clone(p, c) => (s.(contents := s.contents[c := Area(s.contents, p)]), None)
    case Create(t) => (s.(contents := s.contents[t := RESET]), None)
  }

  /** Where the lazy scheme keeps the contents of task `t`. */
  function Held(l: Lazy, t: nat): Regs {
    if l.owner == Some(t) then l.regs else if t in l.used then Area(l.saved, t) else RESET
  }

  /**
   * What is compared of the register file: all of it (`Whole`), or the control words only (`Control`). A view
   * must at least tell changed control words from the reset state.
   */
  ghost predicate Tells<T>(view: Regs -> T) {
    view(Regs(1, 0)) != view(RESET)
  }

  function Whole(r: Regs): Regs {
    r
  }

  function Control(r: Regs): nat {
    r.control
  }

  ghost predicate Refines<T>(view: Regs -> T, l: Lazy, s: Eager) {
    && l.current == s.current
    && (!l.trap ==> l.current.Some? && l.owner == l.current)
    && (l.owner.Some? ==> l.owner.value in l.used)
    && forall t: nat :: view(Held(l, t)) == view(Area(s.contents, t))
  }

  /**
   * New tasks are only set up in memory whose last task does not own the registers. For a clone the registers
   * may also happen to hold the parent's contents, if the parent has used them.
   */
  predicate Harmless<T(==)>(view: Regs -> T, l: Lazy, e: Event) {
    match e
    case Clone(p, c) => l.owner == Some(c) ==> p in l.used && view(l.regs) == view(Held(l, p))
    case Create(t) => l.owner != Some(t)
    case _ => true
  }

  /** The running task is about to use the registers for the first time. */
  predicate FirstUse(l: Lazy) {
    l.current.Some? && l.trap && l.owner != l.current && l.current.value !in l.used
  }

  /** A first use finds data registers that show nothing of the task before. */
  predicate Clean<T(==)>(view: Regs -> T, l: Lazy, e: Event) {
    e.Use? && FirstUse(l) ==> view(Initialised(l.regs)) == view(RESET)
  }

  /** Two uses find the same, as far as the view goes. */
  predicate Same<T(==)>(view: Regs -> T, found: Option<Regs>, found': Option<Regs>) {
    match (found, found')
    case (Some(r), Some(r')) => view(r) == view(r')
    case _ => found.None? && found'.None?
  }

  /** After the trap the running task owns the registers; of another task nothing has changed. */
  lemma TrapRefines<T>(view: Regs -> T, l: Lazy, s: Eager, t: nat, u: nat)
    requires Refines(view, l, s) && l.current == Some(t)
    ensures Trapped(l, t).owner == Some(t) && t in Trapped(l, t).used
    ensures u != t ==> view(Held(Trapped(l, t), u)) == view(Area(s.contents, u))
    ensures l.owner == Some(t) || t in l.used ==> view(Trapped(l, t).regs) == view(Area(s.contents, t))
    ensures l.owner != Some(t) && t !in l.used ==>
              Trapped(l, t).regs == Initialised(l.regs) && view(Area(s.contents, t)) == view(RESET)
  {
    assert view(Held(l, u)) == view(Area(s.contents, u)) && view(Held(l, t)) == view(Area(s.contents, t));
  }

  /** A use keeps the refinement, and finds what it should exactly when it is clean. */
  lemma UseRefines<T>(view: Regs -> T, l: Lazy, s: Eager, v: Regs)
    requires Refines(view, l, s)
    ensures Refines(view, Apply(l, Use(v)).0, ApplyEager(s, Use(v)).0)
    ensures Same(view, Apply(l, Use(v)).1, ApplyEager(s, Use(v)).1) <==> Clean(view, l, Use(v))
  {
    if l.current.Some? {
      var t := l.current.value;
      var l', s' := Apply(l, Use(v)).0, ApplyEager(s, Use(v)).0;
      TrapRefines(view, l, s, t, t);
      assert view(Held(l, t)) == view(Area(s.contents, t));
      forall u: nat ensures view(Held(l', u)) == view(Area(s'.contents, u)) {
        TrapRefines(view, l, s, t, u);
        assert view(Held(l, u)) == view(Area(s.contents, u));
      }
    }
  }

  lemma CloneRefines<T>(view: Regs -> T, l: Lazy, s: Eager, p: nat, c: nat)
    requires Refines(view, l, s) && Harmless(view, l, Clone(p, c))
    ensures Refines(view, Apply(l, Clone(p, c)).0, ApplyEager(s, Clone(p, c)).0)
  {
    var l', s' := Apply(l, Clone(p, c)).0, ApplyEager(s, Clone(p, c)).0;
    assert view(Held(l, p)) == view(Area(s.contents, p));
    forall u: nat ensures view(Held(l', u)) == view(Area(s'.contents, u)) {
      assert view(Held(l, u)) == view(Area(s.contents, u));
    }
  }

  /** Every harmless event keeps the refinement; what a use finds is right exactly when it is clean. */
  lemma StepRefines<T>(view: Regs -> T, l: Lazy, s: Eager, e: Event)
    requires Refines(view, l, s) && Harmless(view, l, e)
    ensures Refines(view, Apply(l, e).0, ApplyEager(s, e).0)
    ensures Same(view, Apply(l, e).1, ApplyEager(s, e).1) <==> Clean(view, l, e)
  {
    match e
    case Use(v) => UseRefines(view, l, s, v);
    case Clone(p, c) => CloneRefines(view, l, s, p, c);
    case _ =>
      var l', s' := Apply(l, e).0, ApplyEager(s, e).0;
      forall u: nat ensures view(Held(l', u)) == view(Area(s'.contents, u)) {
        assert view(Held(l, u)) == view(Area(s.contents, u));
      }
  }

  // ---- whole runs ----

  /** The state after a run and everything its uses found, in order. */
  function Run(events: seq<Event>): (r: (Lazy, seq<Option<Regs>>))
    ensures |r.1| == |events|
  {
    if events == [] then (BOOT, [])
    else
      var n := |events| - 1;
      var (l, found) := Run(events[..n]);
      var (l', f) := Apply(l, events[n]);
      (l', found + [f])
  }

  function RunEager(events: seq<Event>): (r: (Eager, seq<Option<Regs>>))
    ensures |r.1| == |events|
  {
    if events == [] then (Eager(None, map[]), [])
    else
      var n := |events| - 1;
      var (s, found) := RunEager(events[..n]);
      var (s', f) := ApplyEager(s, events[n]);
      (s', found + [f])
  }

  ghost predicate HarmlessAt<T>(view: Regs -> T, events: seq<Event>, k: nat)
    requires k < |events|
  {
    Harmless(view, Run(events[..k]).0, events[k])
  }

  ghost predicate CleanAt<T>(view: Regs -> T, events: seq<Event>, k: nat)
    requires k < |events|
  {
    Clean(view, Run(events[..k]).0, events[k])
  }

  lemma NextEvent(events: seq<Event>, n: nat)
    requires n < |events|
    ensures var (l, found) := Run(events[..n]);
            var (l', f) := Apply(l, events[n]); Run(events[..n + 1]) == (l', found + [f])
    ensures var (s, found) := RunEager(events[..n]);
            var (s', f) := ApplyEager(s, events[n]); RunEager(events[..n + 1]) == (s', found + [f])
  {
    assert events[..n + 1][..n] == events[..n];
  }

  lemma {:induction false} RunRefines<T>(view: Regs -> T, events: seq<Event>, n: nat)
    requires n <= |events| && forall k: nat :: k < n ==> HarmlessAt(view, events, k)
    ensures Refines(view, Run(events[..n]).0, RunEager(events[..n]).0)
  {
    if n == 0 {
      assert forall t: nat :: Held(BOOT, t) == Area(map[], t);
    } else {
      RunRefines(view, events, n - 1);
      NextEvent(events, n - 1);
      assert HarmlessAt(view, events, n - 1);
      StepRefines(view, Run(events[..n - 1]).0, RunEager(events[..n - 1]).0, events[n - 1]);
    }
  }

  lemma {:induction false} FoundAt(events: seq<Event>, n: nat, k: nat)
    requires k < n <= |events|
    ensures Run(events[..n]).1[k] == Apply(Run(events[..k]).0, events[k]).1
    ensures RunEager(events[..n]).1[k] == ApplyEager(RunEager(events[..k]).0, events[k]).1
    decreases n
  {
    NextEvent(events, n - 1);
    if k == n - 1 {
    } else {
      FoundAt(events, n - 1, k);
    }
  }

  /**
   * Lazy switching against eager switching, in every run of harmless events with traps armed at any time: a use
   * finds exactly what the running task last left, or the reset state at its first use, exactly when it is
   * clean. Of the control words every use finds the right ones.
   */
  lemma LazyIsEager<T>(view: Regs -> T, events: seq<Event>)
    requires forall k: nat :: k < |events| ==> HarmlessAt(view, events, k)
    ensures Refines(view, Run(events).0, RunEager(events).0)
    ensures forall k: nat :: k < |events| ==>
              (Same(view, Run(events).1[k], RunEager(events).1[k]) <==> CleanAt(view, events, k))
  {
    var n := |events|;
    assert events[..n] == events;
    RunRefines(view, events, n);
    forall k: nat | k < n ensures Same(view, Run(events).1[k], RunEager(events).1[k]) <==> CleanAt(view, events, k) {
      RunRefines(view, events, k);
      FoundAt(events, n, k);
      assert HarmlessAt(view, events, k);
      StepRefines(view, Run(events[..k]).0, RunEager(events[..k]).0, events[k]);
    }
  }

  /** The control words of the registers are switched correctly in every run of events that are harmless to them. */
  lemma ControlIsEager(events: seq<Event>)
    requires forall k: nat :: k < |events| ==> HarmlessAt(Control, events, k)
    ensures forall k: nat :: k < |events| ==> Same(Control, Run(events).1[k], RunEager(events).1[k])
  {
    LazyIsEager(Control, events);
    forall k: nat | k < |events| ensures Same(Control, Run(events).1[k], RunEager(events).1[k]) {
      assert CleanAt(Control, events, k);
    }
  }

  /** The kernel's handlers, called one after the other, give every clean use what eager switching would. */
  method HandleAll(events: seq<Event>) returns (found: seq<Option<Regs>>)
    ensures found == Run(events).1
    ensures (forall k: nat :: k < |events| ==> HarmlessAt(Whole, events, k)) ==>
              (found == RunEager(events).1 <==> forall k: nat :: k < |events| ==> CleanAt(Whole, events, k))
  {
    var cpu := new Cpu();
    found := [];
    for i := 0 to |events|
      invariant fresh(cpu) && (cpu.State(), found) == Run(events[..i])
    {
      NextEvent(events, i);
      var f := cpu.Handle(events[i]);
      found := found + [f];
    }
    assert events[..|events|] == events;
    AllFound(events);
  }

  lemma AllFound(events: seq<Event>)
    ensures (forall k: nat :: k < |events| ==> HarmlessAt(Whole, events, k)) ==>
              (Run(events).1 == RunEager(events).1 <==> forall k: nat :: k < |events| ==> CleanAt(Whole, events, k))
  {
    if forall k: nat :: k < |events| ==> HarmlessAt(Whole, events, k) {
      LazyIsEager(Whole, events);
      var lazy, eager := Run(events).1, RunEager(events).1;
      assert forall k: nat :: k < |events| ==> (Same(Whole, lazy[k], eager[k]) <==> lazy[k] == eager[k]);
      assert lazy == eager <==> forall k: nat :: k < |events| ==> lazy[k] == eager[k];
    }
  }

  // ---- exactly when no task can tell ----

  predicate NoSetup(e: Event) {
    !e.Clone? && !e.Create?
  }

  /** From here on the two schemes find the same in every clean continuation without new tasks of bounded length. */
  ghost predicate AlikeFor<T>(view: Regs -> T, l: Lazy, s: Eager, n: nat)
    decreases n
  {
    n > 0 ==> forall e: Event :: NoSetup(e) && Clean(view, l, e) ==>
      && Same(view, Apply(l, e).1, ApplyEager(s, e).1)
      && AlikeFor(view, Apply(l, e).0, ApplyEager(s, e).0, n - 1)
  }

  /** The tasks there are find the same in their registers, however they run from here on. */
  ghost predicate Alike<T>(view: Regs -> T, l: Lazy, s: Eager) {
    forall n: nat :: AlikeFor(view, l, s, n)
  }

  lemma {:induction false} RefinesFinds<T>(view: Regs -> T, l: Lazy, s: Eager, n: nat)
    requires Refines(view, l, s)
    ensures AlikeFor(view, l, s, n)
    decreases n
  {
    if n == 0 {
    } else {
      forall e: Event | NoSetup(e) && Clean(view, l, e)
        ensures Same(view, Apply(l, e).1, ApplyEager(s, e).1)
        ensures AlikeFor(view, Apply(l, e).0, ApplyEager(s, e).0, n - 1)
      {
        StepRefines(view, l, s, e);
        RefinesFinds(view, Apply(l, e).0, ApplyEager(s, e).0, n - 1);
      }
    }
  }

  lemma RefinesAlike<T>(view: Regs -> T, l: Lazy, s: Eager)
    requires Refines(view, l, s)
    ensures Alike(view, l, s)
  {
    forall n: nat ensures AlikeFor(view, l, s, n) { RefinesFinds(view, l, s, n); }
  }

  /** States that can be told apart after one more clean event can be told apart. */
  lemma NotAlikeLater<T>(view: Regs -> T, l: Lazy, s: Eager, e: Event)
    requires NoSetup(e) && Clean(view, l, e) && !Alike(view, Apply(l, e).0, ApplyEager(s, e).0)
    ensures !Alike(view, l, s)
  {
    var n: nat :| !AlikeFor(view, Apply(l, e).0, ApplyEager(s, e).0, n);
    assert !AlikeFor(view, l, s, n + 1);
  }

  lemma NotAlikeNow<T>(view: Regs -> T, l: Lazy, s: Eager, e: Event)
    requires NoSetup(e) && Clean(view, l, e) && !Same(view, Apply(l, e).1, ApplyEager(s, e).1)
    ensures !Alike(view, l, s)
  {
    assert !AlikeFor(view, l, s, 1);
  }

  /** An owner the kernel thinks has never used the registers loses what it writes there. */
  lemma OwnerForgotten<T>(view: Regs -> T, l: Lazy, s: Eager, t: nat)
    requires Tells(view) && l.owner == Some(t) && t !in l.used
    ensures !Alike(view, l, s)
  {
    var v := Regs(1, 0);
    var l1, s1 := Apply(l, Switch(t)).0, ApplyEager(s, Switch(t)).0;
    var l2, s2 := Apply(l1, Use(v)).0, ApplyEager(s1, Use(v)).0;
    var l3, s3 := Apply(l2, Switch(t + 1)).0, ApplyEager(s2, Switch(t + 1)).0;
    var l4, s4 := Apply(l3, Use(RESET)).0, ApplyEager(s3, Use(RESET)).0;
    var l5, s5 := Apply(l4, Switch(t)).0, ApplyEager(s4, Switch(t)).0;
    assert Apply(l5, Use(RESET)).1 == Some(RESET) && ApplyEager(s5, Use(RESET)).1 == Some(v);
    NotAlikeNow(view, l5, s5, Use(RESET));
    NotAlikeLater(view, l4, s4, Switch(t));
    NotAlikeLater(view, l3, s3, Use(RESET));
    NotAlikeLater(view, l2, s2, Switch(t + 1));
    NotAlikeLater(view, l1, s1, Use(v));
    NotAlikeLater(view, l, s, Switch(t));
  }

  /** An owner whose registers are not its own finds the wrong contents at once. */
  lemma OwnerMistaken<T>(view: Regs -> T, l: Lazy, s: Eager, t: nat)
    requires l.owner == Some(t) && view(l.regs) != view(Area(s.contents, t))
    ensures !Alike(view, l, s)
  {
    var l1, s1 := Apply(l, Switch(t)).0, ApplyEager(s, Switch(t)).0;
    NotAlikeNow(view, l1, s1, Use(RESET));
    NotAlikeLater(view, l, s, Switch(t));
  }

  /** From a state that refines eager switching, no task can tell after an event exactly when it is harmless. */
  lemma HarmlessExact<T>(view: Regs -> T, l: Lazy, s: Eager, e: Event)
    requires Refines(view, l, s) && Tells(view)
    ensures Alike(view, Apply(l, e).0, ApplyEager(s, e).0) <==> Harmless(view, l, e)
  {
    var l', s' := Apply(l, e).0, ApplyEager(s, e).0;
    if Harmless(view, l, e) {
      StepRefines(view, l, s, e);
      RefinesAlike(view, l', s');
    } else if e.Create? || e.parent !in l.used {
      OwnerForgotten(view, l', s', l.owner.value);
    } else {
      assert view(Held(l, e.parent)) == view(Area(s.contents, e.parent));
      OwnerMistaken(view, l', s', e.child);
    }
  }

  ghost predicate AlikeAfter<T>(view: Regs -> T, events: seq<Event>, n: nat)
    requires n <= |events|
  {
    Alike(view, Run(events[..n]).0, RunEager(events[..n]).0)
  }

  lemma NextAlike<T>(view: Regs -> T, events: seq<Event>, n: nat)
    requires Tells(view) && n < |events| && forall k: nat :: k < n ==> HarmlessAt(view, events, k)
    ensures AlikeAfter(view, events, n + 1) <==> HarmlessAt(view, events, n)
  {
    RunRefines(view, events, n);
    HarmlessExact(view, Run(events[..n]).0, RunEager(events[..n]).0, events[n]);
    NextEvent(events, n);
  }

  /**
   * All along a run no task can tell lazy from eager switching, by the control words or by all of the registers
   * in clean uses, exactly when every event of the run is harmless: no task is set up in the memory of the task
   * that owns the registers.
   */
  lemma {:induction false} LazyExact<T>(view: Regs -> T, events: seq<Event>, n: nat)
    requires Tells(view) && n <= |events|
    ensures (forall k: nat :: k <= n ==> AlikeAfter(view, events, k))
              <==> (forall k: nat :: k < n ==> HarmlessAt(view, events, k))
  {
    if n == 0 {
      RunRefines(view, events, 0);
      RefinesAlike(view, Run(events[..0]).0, RunEager(events[..0]).0);
      assert AlikeAfter(view, events, 0);
    } else {
      LazyExact(view, events, n - 1);
      if forall k: nat :: k < n - 1 ==> HarmlessAt(view, events, k) {
        NextAlike(view, events, n - 1);
      }
    }
  }

  ghost predicate SameAt<T>(view: Regs -> T, events: seq<Event>, k: nat)
    requires k < |events|
  {
    Same(view, Run(events).1[k], RunEager(events).1[k])
  }

  /**
   * The uses of a run find what they should and no task can tell later on, exactly when every event is harmless
   * and every first use is clean.
   */
  lemma RunExact<T>(view: Regs -> T, events: seq<Event>)
    requires Tells(view)
    ensures (forall k: nat :: k < |events| ==> SameAt(view, events, k))
              && (forall k: nat :: k <= |events| ==> AlikeAfter(view, events, k))
            <==> forall k: nat :: k < |events| ==> HarmlessAt(view, events, k) && CleanAt(view, events, k)
  {
    LazyExact(view, events, |events|);
    if forall k: nat :: k < |events| ==> HarmlessAt(view, events, k) {
      LazyIsEager(view, events);
      assert forall k: nat :: k < |events| ==> (SameAt(view, events, k) <==> CleanAt(view, events, k));
    }
  }

  // ---- inputs at which it fails ----

  /** The first use of one task finds the data registers of the task before it, though every event is harmless. */
  lemma FirstUseFindsOldData(a: nat, b: nat, v: Regs)
    requires a != b
    ensures var events := [Switch(a), Use(v), Switch(b), Use(RESET)];
            && (forall k: nat :: k < 4 ==> HarmlessAt(Whole, events, k))
            && Run(events).1 == [None, Some(RESET), None, Some(Regs(0, v.data))]
            && RunEager(events).1 == [None, Some(RESET), None, Some(RESET)]
  {
    var events := [Switch(a), Use(v), Switch(b), Use(RESET)];
    for n := 0 to 4
      invariant Run(events[..n]).1 == [None, Some(RESET), None, Some(Regs(0, v.data))][..n]
      invariant RunEager(events[..n]).1 == [None, Some(RESET), None, Some(RESET)][..n]
      invariant n == 1 ==> Run(events[..n]).0 == BOOT.(current := Some(a))
      invariant 2 <= n < 4 ==> Run(events[..n]).0.regs == v && Run(events[..n]).0.owner == Some(a)
      invariant 2 <= n < 4 ==> Run(events[..n]).0.used == {a}
      invariant n == 3 ==> Run(events[..n]).0.current == Some(b) && Run(events[..n]).0.trap
      invariant n == 1 || n == 2 ==> RunEager(events[..n]).0.current == Some(a)
      invariant n == 1 ==> RunEager(events[..n]).0.contents == map[]
      invariant n == 3 ==> RunEager(events[..n]).0.current == Some(b)
      invariant 2 <= n < 4 ==> b !in RunEager(events[..n]).0.contents
    {
      NextEvent(events, n);
    }
    assert events[..4] == events;
  }

  /** A task set up in the memory of the registers' owner finds the old contents at its first use. */
  lemma RecycledOwnerSeesOldRegisters(t: nat, v: Regs)
    ensures var events := [Switch(t), Use(v), Create(t), Switch(t), Use(RESET)];
            && Run(events).1 == [None, Some(RESET), None, None, Some(v)]
            && RunEager(events).1 == [None, Some(RESET), None, None, Some(RESET)]
  {
    var events := [Switch(t), Use(v), Create(t), Switch(t), Use(RESET)];
    for n := 0 to 5
      invariant 2 <= n < 5 ==> Run(events[..n]).0.regs == v && Run(events[..n]).0.owner == Some(t)
      invariant Run(events[..n]).1 == [None, Some(RESET), None, None, Some(v)][..n]
      invariant RunEager(events[..n]).1 == [None, Some(RESET), None, None, Some(RESET)][..n]
      invariant n == 1 ==> Run(events[..1]).0 == BOOT.(current := Some(t))
      invariant n >= 1 ==> Run(events[..n]).0.current == Some(t) == RunEager(events[..n]).0.current
      invariant n == 1 ==> RunEager(events[..1]).0.contents == map[]
      invariant n >= 3 ==> Area(RunEager(events[..n]).0.contents, t) == RESET
    {
      NextEvent(events, n);
    }
    assert events[..5] == events;
  }
}
