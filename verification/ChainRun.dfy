/** The chain runner: a flat program counter, a stack of loop frames and a budget of attempts. */
module ChainRun {
  import opened Bytes
  import opened Chain

  const EXIT_OK := 0
  const EXIT_FAIL := 1
  const EXIT_CONFIG := 2
  const EXIT_INT := 130
  const EXIT_TERM := 143

  datatype Frame = Frame(id: string, remaining: int)

  /**
   * Everything outside the runner: the verdict on each attempt, and the interrupt flag, which once raised
   * stays raised (it is read once per step and once per attempt).
   */
  datatype Env = Env(succeeds: nat -> bool, raisedAt: Option<nat>, sigint: bool) {
    predicate Raised(check: nat) {
      raisedAt.Some? && raisedAt.value <= check
    }
  }

  datatype State = State(pc: int, stack: seq<Frame>, attempts: nat, checks: nat, errors: nat, trace: seq<nat>)

  datatype Config = Going(st: State) | Done(code: int, st: State)

  const START := State(0, [], 0, 0, 0, [])

  function EndOf(pairs: map<nat, nat>, s: nat, n: nat): nat {
    if s in pairs then pairs[s] else n
  }

  /** The first start from `i` on that is paired with `e`, or `n`. */
  function StartOf(pairs: map<nat, nat>, e: nat, i: nat, n: nat): (s: nat)
    requires i <= n
    ensures i <= s <= n
    ensures s < n ==> s in pairs && pairs[s] == e
    ensures forall j :: i <= j < s ==> !(j in pairs && pairs[j] == e)
    decreases n - i
  {
    if i == n || (i in pairs && pairs[i] == e) then i else StartOf(pairs, e, i + 1, n)
  }

  /** Up to `left` attempts of one step; an interrupt gives up before the next attempt. */
  function Tries(env: Env, st: State, left: nat): (bool, State)
    decreases left
  {
    if left == 0 then (false, st)
    else
      var st' := st.(checks := st.checks + 1);
      if env.Raised(st.checks) then (false, st')
      else
        var st'' := st'.(attempts := st.attempts + 1);
        if env.succeeds(st.attempts) then (true, st'') else Tries(env, st'', left - 1)
  }

  /** A program whose tables all fit together, as the compiler delivers it. */
  ghost predicate Wf(p: Program) {
    && Pairing(p.kinds, p.pairEnd) && |p.next| == |p.onError| == |p.retries| == |p.kinds|
    && forall i :: 0 <= i < |p.retries| ==> p.retries[i] <= MAX_RETRIES
  }

  /** One attempted step and the jump after it. A target of `fail` after success just leaves the chain. */
  function ExecStep(p: Program, env: Env, st: State): Config
    requires 0 <= st.pc < |p.kinds| && |p.next| == |p.onError| == |p.retries| == |p.kinds|
  {
    var (ok, st') := Tries(env, st, p.retries[st.pc] + 1);
    if ok then Going(st'.(pc := if p.next[st.pc] == STOP then |p.kinds| else p.next[st.pc]))
    else
      var st'' := st'.(errors := st'.errors + 1);
      if p.onError[st.pc] == FAIL then Done(EXIT_FAIL, st'') else Going(st''.(pc := p.onError[st.pc]))
  }

  function StartStep(pairs: map<nat, nat>, n: nat, st: State, id: string, count: int): State
    requires 0 <= st.pc
  {
    if count == 0 then st.(pc := EndOf(pairs, st.pc, n) + 1)
    else st.(pc := st.pc + 1, stack := st.stack + [Frame(id, count)])
  }

  function EndStep(pairs: map<nat, nat>, n: nat, st: State, id: string): Config
    requires 0 <= st.pc
  {
    var k := |st.stack| - 1;
    if st.stack == [] || st.stack[k].id != id then Done(EXIT_CONFIG, st)
    else if st.stack[k].remaining > 1
    then Going(st.(pc := StartOf(pairs, st.pc, 0, n) + 1,
        stack := st.stack[..k] + [Frame(id, st.stack[k].remaining - 1)]))
    else Going(st.(pc := st.pc + 1, stack := st.stack[..k]))
  }

  /** One turn of the runner's loop. */
  function Turn(p: Program, env: Env, budget: int, st: State): Config
    requires |p.next| == |p.onError| == |p.retries| == |p.kinds|
  {
    if !(0 <= st.pc < |p.kinds|) then Done(EXIT_OK, st)
    else if env.Raised(st.checks) then Done(if env.sigint then EXIT_INT else EXIT_TERM, st)
    else if st.attempts >= budget then Done(EXIT_FAIL, st)
    else
      var here := st.(checks := st.checks + 1, trace := st.trace + [st.pc]);
      match p.kinds[st.pc]
      case LoopStart(id, count) => Going(StartStep(p.pairEnd, |p.kinds|, here, id, count))
      case LoopEnd(id) => EndStep(p.pairEnd, |p.kinds|, here, id)
      case Exec => ExecStep(p, env, here)
  }

  // ---- what is left to visit when every step just falls through ----

  function Repeated(k: int, s: seq<nat>): seq<nat> {
    if k <= 0 then [] else s + Repeated(k - 1, s)
  }

  /** The steps from `a` up to `b` with every loop on the way unrolled `count` times. */
  function Visits(kinds: seq<Kind>, pairs: map<nat, nat>, a: nat, b: nat): seq<nat>
    requires b <= |kinds|
    decreases b - a
  {
    if a >= b then []
    else
      var e := EndOf(pairs, a, |kinds|);
      if kinds[a].LoopStart? && a < e < b
      then [a] + (Repeated(kinds[a].count, Visits(kinds, pairs, a + 1, e) + [e]) + Visits(kinds, pairs, e + 1, b))
      else [a] + Visits(kinds, pairs, a + 1, b)
  }

  /** The end of the innermost loop around `i`, or the chain length. */
  function Close(kinds: seq<Kind>, pairs: map<nat, nat>, i: nat): (e: nat)
    requires i <= |kinds|
    ensures i <= e <= |kinds| && (e < |kinds| ==> IsEnd(kinds, e))
    decreases |kinds| - i
  {
    if i == |kinds| || kinds[i].LoopEnd? then i
    else
      var e := EndOf(pairs, i, |kinds|);
      Close(kinds, pairs, if kinds[i].LoopStart? && i < e < |kinds| then e + 1 else i + 1)
  }

  /** Everything still to visit: the rest of the innermost loop, its remaining rounds, and what follows it. */
  function Rest(kinds: seq<Kind>, pairs: map<nat, nat>, pc: int, stack: seq<Frame>): seq<nat>
    decreases |kinds| - pc
  {
    if !(0 <= pc < |kinds|) then []
    else
      var e := Close(kinds, pairs, pc);
      if e == |kinds| then Visits(kinds, pairs, pc, e)
      else Visits(kinds, pairs, pc, e) + ([e] + AfterEnd(kinds, pairs, e, stack))
  }

  function AfterEnd(kinds: seq<Kind>, pairs: map<nat, nat>, e: nat, stack: seq<Frame>): seq<nat>
    requires IsEnd(kinds, e)
    decreases |kinds| - e, 0
  {
    var k := |stack| - 1;
    if stack == [] || stack[k].id != kinds[e].id then []
    else Repeated(stack[k].remaining - 1, Round(kinds, pairs, e)) + Rest(kinds, pairs, e + 1, stack[..k])
  }

  /** One round of the loop that ends at `e`. */
  function Round(kinds: seq<Kind>, pairs: map<nat, nat>, e: nat): seq<nat>
    requires IsEnd(kinds, e)
  {
    Visits(kinds, pairs, StartOf(pairs, e, 0, |kinds|) + 1, e) + [e]
  }

  // ---- the pairing seen from inside ----

  lemma StartOfEnd(kinds: seq<Kind>, pairs: map<nat, nat>, s: nat)
    requires Pairing(kinds, pairs) && s in pairs
    ensures StartOf(pairs, pairs[s], 0, |kinds|) == s
  {
    var t := StartOf(pairs, pairs[s], 0, |kinds|);
    assert IsLoop(kinds, s, pairs[s]);
  }

  /** Step `i` lies in the loop that starts at `s`, its end included. */
  predicate In(pairs: map<nat, nat>, s: nat, i: int) {
    s in pairs && s < i <= pairs[s]
  }

  /** Falling through an ordinary step stays in the same loops. */
  lemma InPastExec(kinds: seq<Kind>, pairs: map<nat, nat>, i: nat, t: nat)
    requires Pairing(kinds, pairs) && i < |kinds| && kinds[i].Exec?
    ensures In(pairs, t, i + 1) <==> In(pairs, t, i)
  {
    if t in pairs { assert IsLoop(kinds, t, pairs[t]); }
  }

  /** Entering a loop adds that loop, at its first step as at its end. */
  lemma InLoop(kinds: seq<Kind>, pairs: map<nat, nat>, s: nat, t: nat)
    requires Pairing(kinds, pairs) && s in pairs
    ensures In(pairs, t, s + 1) <==> In(pairs, t, s) || t == s
    ensures In(pairs, t, pairs[s]) <==> In(pairs, t, s) || t == s
    ensures In(pairs, t, pairs[s] + 1) <==> In(pairs, t, s)
  {
    assert IsLoop(kinds, s, pairs[s]);
    if t in pairs {
      assert IsLoop(kinds, t, pairs[t]);
      if t < s { assert pairs[t] < s || pairs[s] < pairs[t]; }
      if s < t { assert pairs[s] < t || pairs[t] < pairs[s]; }
    }
  }

  ghost predicate Innermost(pairs: map<nat, nat>, s: nat, i: nat) {
    In(pairs, s, i) && forall t: nat :: In(pairs, t, i) ==> t <= s
  }

  lemma InnermostMoves(pairs: map<nat, nat>, s: nat, i: nat, j: nat)
    requires Innermost(pairs, s, i) && forall t: nat :: In(pairs, t, j) <==> In(pairs, t, i)
    ensures Innermost(pairs, s, j)
  {
  }

  /** The end of a loop lies in that loop and the ones around it. */
  lemma InnermostAtEnd(kinds: seq<Kind>, pairs: map<nat, nat>, s: nat, i: nat)
    requires Pairing(kinds, pairs) && Innermost(pairs, s, i) && IsEnd(kinds, i)
    ensures pairs[s] == i
  {
    assert Closed(pairs, i);
    var t :| t in pairs && pairs[t] == i;
    assert IsLoop(kinds, t, i) && In(pairs, t, i);
  }

  lemma InnermostPastExec(kinds: seq<Kind>, pairs: map<nat, nat>, s: nat, i: nat)
    requires Pairing(kinds, pairs) && Innermost(pairs, s, i) && i < |kinds| && kinds[i].Exec?
    ensures Innermost(pairs, s, i + 1)
  {
    forall t: nat ensures In(pairs, t, i + 1) <==> In(pairs, t, i) { InPastExec(kinds, pairs, i, t); }
    InnermostMoves(pairs, s, i, i + 1);
  }

  lemma InnermostPastLoop(kinds: seq<Kind>, pairs: map<nat, nat>, s: nat, i: nat)
    requires Pairing(kinds, pairs) && Innermost(pairs, s, i) && i in pairs
    ensures Innermost(pairs, s, pairs[i] + 1)
  {
    forall t: nat ensures In(pairs, t, pairs[i] + 1) <==> In(pairs, t, i) { InLoop(kinds, pairs, i, t); }
    InnermostMoves(pairs, s, i, pairs[i] + 1);
  }

  lemma LoopOfStart(kinds: seq<Kind>, pairs: map<nat, nat>, i: nat)
    requires Pairing(kinds, pairs) && IsStart(kinds, i)
    ensures i in pairs && IsLoop(kinds, i, pairs[i])
  {
  }

  lemma CloseSkipsExec(kinds: seq<Kind>, pairs: map<nat, nat>, i: nat)
    requires i < |kinds| && kinds[i].Exec?
    ensures Close(kinds, pairs, i) == Close(kinds, pairs, i + 1)
  {
  }

  lemma CloseSkipsLoop(kinds: seq<Kind>, pairs: map<nat, nat>, i: nat)
    requires i in pairs && IsLoop(kinds, i, pairs[i])
    ensures Close(kinds, pairs, i) == Close(kinds, pairs, pairs[i] + 1)
  {
  }

  /** One move of the forward scan stays directly inside the loop. */
  ghost predicate Moves(kinds: seq<Kind>, pairs: map<nat, nat>, s: nat, i: nat, j: nat) {
    i < j < |kinds| && Innermost(pairs, s, j) && Close(kinds, pairs, i) == Close(kinds, pairs, j)
  }

  lemma MovesPastExec(kinds: seq<Kind>, pairs: map<nat, nat>, s: nat, i: nat)
    requires Pairing(kinds, pairs) && Innermost(pairs, s, i) && i < |kinds| && kinds[i].Exec?
    ensures Moves(kinds, pairs, s, i, i + 1)
  {
    InnermostPastExec(kinds, pairs, s, i);
    InnermostInChain(kinds, pairs, s, i + 1);
    CloseSkipsExec(kinds, pairs, i);
  }

  lemma MovesPastLoop(kinds: seq<Kind>, pairs: map<nat, nat>, s: nat, i: nat)
    requires Pairing(kinds, pairs) && Innermost(pairs, s, i) && IsStart(kinds, i)
    ensures i in pairs && Moves(kinds, pairs, s, i, pairs[i] + 1)
  {
    LoopOfStart(kinds, pairs, i);
    InnermostPastLoop(kinds, pairs, s, i);
    InnermostInChain(kinds, pairs, s, pairs[i] + 1);
    CloseSkipsLoop(kinds, pairs, i);
  }

  /** Where the forward scan goes from step `i`. */
  function NextPos(kinds: seq<Kind>, pairs: map<nat, nat>, i: nat): nat {
    if IsStart(kinds, i) && i in pairs then pairs[i] + 1 else i + 1
  }

  lemma MovesOn(kinds: seq<Kind>, pairs: map<nat, nat>, s: nat, i: nat)
    requires Pairing(kinds, pairs) && Innermost(pairs, s, i) && i < |kinds| && !IsEnd(kinds, i)
    ensures Moves(kinds, pairs, s, i, NextPos(kinds, pairs, i))
  {
    if kinds[i].Exec? {
      MovesPastExec(kinds, pairs, s, i);
    } else {
      MovesPastLoop(kinds, pairs, s, i);
    }
  }

  /** A forward scan that stays inside until it meets the only end there is finds that end. */
  lemma {:induction false} ScanFinds(kinds: seq<Kind>, pairs: map<nat, nat>, inside: nat -> bool, e: nat, i: nat)
    requires i < |kinds| && inside(i)
    requires forall k: nat :: inside(k) && IsEnd(kinds, k) ==> k == e
    requires forall k: nat :: inside(k) && k < |kinds| && !IsEnd(kinds, k) ==>
               var j := NextPos(kinds, pairs, k);
               k < j < |kinds| && inside(j) && Close(kinds, pairs, k) == Close(kinds, pairs, j)
    ensures Close(kinds, pairs, i) == e
    decreases |kinds| - i
  {
    if IsEnd(kinds, i) {
    } else {
      ScanFinds(kinds, pairs, inside, e, NextPos(kinds, pairs, i));
    }
  }

  lemma InnermostInChain(kinds: seq<Kind>, pairs: map<nat, nat>, s: nat, i: nat)
    requires Pairing(kinds, pairs) && Innermost(pairs, s, i)
    ensures i < |kinds|
  {
    assert IsLoop(kinds, s, pairs[s]);
  }

  /** Scanning forward from inside a loop finds the end of the innermost one. */
  lemma CloseFinds(kinds: seq<Kind>, pairs: map<nat, nat>, s: nat, i: nat)
    requires Pairing(kinds, pairs) && Innermost(pairs, s, i) && i < |kinds|
    ensures Close(kinds, pairs, i) == pairs[s]
  {
    var inside := (k: nat) => Innermost(pairs, s, k);
    forall k: nat | inside(k) && IsEnd(kinds, k) ensures k == pairs[s] {
      InnermostAtEnd(kinds, pairs, s, k);
    }
    forall k: nat | inside(k) && k < |kinds| && !IsEnd(kinds, k)
      ensures Moves(kinds, pairs, s, k, NextPos(kinds, pairs, k))
    {
      MovesOn(kinds, pairs, s, k);
    }
    ScanFinds(kinds, pairs, inside, pairs[s], i);
  }

  lemma InnermostInBody(kinds: seq<Kind>, pairs: map<nat, nat>, s: nat)
    requires Pairing(kinds, pairs) && s in pairs
    ensures Innermost(pairs, s, s + 1)
  {
    var i := s + 1;
    assert IsLoop(kinds, s, pairs[s]);
    forall t: nat | In(pairs, t, i) ensures t <= s { InLoop(kinds, pairs, s, t); }
  }

  /** What the runner needs to know about one loop. */
  ghost predicate LoopAt(kinds: seq<Kind>, pairs: map<nat, nat>, s: nat) {
    && s in pairs && IsLoop(kinds, s, pairs[s])
    && StartOf(pairs, pairs[s], 0, |kinds|) == s
    && Close(kinds, pairs, s + 1) == pairs[s]
  }

  lemma LoopAtStart(kinds: seq<Kind>, pairs: map<nat, nat>, s: nat)
    requires Pairing(kinds, pairs) && IsStart(kinds, s)
    ensures LoopAt(kinds, pairs, s)
  {
    assert IsLoop(kinds, s, pairs[s]);
    StartOfEnd(kinds, pairs, s);
    InnermostInBody(kinds, pairs, s);
    CloseFinds(kinds, pairs, s, s + 1);
  }

  lemma LoopAtEnd(kinds: seq<Kind>, pairs: map<nat, nat>, e: nat) returns (s: nat)
    requires Pairing(kinds, pairs) && IsEnd(kinds, e)
    ensures LoopAt(kinds, pairs, s) && pairs[s] == e
  {
    assert Closed(pairs, e);
    s :| s in pairs && pairs[s] == e;
    assert IsLoop(kinds, s, e);
    LoopAtStart(kinds, pairs, s);
  }

  // ---- every turn visits the head of what is left ----

  /** Going from one place to another visits the head of what is left. */
  ghost predicate UsesUp(kinds: seq<Kind>, pairs: map<nat, nat>, pc: int, stack: seq<Frame>, pc': int,
      stack': seq<Frame>) {
    pc >= 0 && Rest(kinds, pairs, pc, stack) == [pc] + Rest(kinds, pairs, pc', stack')
  }

  /** Falling through an ordinary step. */
  lemma RestPastExec(kinds: seq<Kind>, pairs: map<nat, nat>, pc: nat, stack: seq<Frame>)
    requires pc < |kinds| && kinds[pc].Exec?
    ensures UsesUp(kinds, pairs, pc, stack, pc + 1, stack)
  {
    var e := Close(kinds, pairs, pc);
    var tail := Visits(kinds, pairs, pc + 1, e);
    assert e == Close(kinds, pairs, pc + 1) && Visits(kinds, pairs, pc, e) == [pc] + tail;
    if pc + 1 == |kinds| {
    } else if e < |kinds| {
      var after := [e] + AfterEnd(kinds, pairs, e, stack);
      Regroup([pc], tail, after);
      assert Rest(kinds, pairs, pc + 1, stack) == tail + after;
    }
  }

  lemma Regroup<T>(a: seq<T>, b: seq<T>, c: seq<T>)
    ensures (a + b) + c == a + (b + c)
  {
  }

  /** What is left at a loop start: all rounds of the loop, and what is left after it. */
  lemma RestAtStart(kinds: seq<Kind>, pairs: map<nat, nat>, s: nat, stack: seq<Frame>)
    requires LoopAt(kinds, pairs, s)
    ensures Rest(kinds, pairs, s, stack)
              == [s] + (Repeated(kinds[s].count, Round(kinds, pairs, pairs[s]))
                        + Rest(kinds, pairs, pairs[s] + 1, stack))
  {
    var f := pairs[s];
    var e := Close(kinds, pairs, s);
    assert e == Close(kinds, pairs, f + 1);
    var rounds, tail := Repeated(kinds[s].count, Round(kinds, pairs, f)), Visits(kinds, pairs, f + 1, e);
    assert Visits(kinds, pairs, s, e) == [s] + (rounds + tail);
    if e < |kinds| {
      var after := [e] + AfterEnd(kinds, pairs, e, stack);
      assert ([s] + (rounds + tail)) + after == [s] + (rounds + (tail + after));
    }
  }

  /** What is left inside a loop with `k` rounds to go. */
  lemma RestInBody(kinds: seq<Kind>, pairs: map<nat, nat>, s: nat, stack: seq<Frame>, k: int)
    requires LoopAt(kinds, pairs, s) && k >= 1
    ensures Rest(kinds, pairs, s + 1, stack + [Frame(kinds[s].id, k)])
              == Repeated(k, Round(kinds, pairs, pairs[s])) + Rest(kinds, pairs, pairs[s] + 1, stack)
  {
    var e := pairs[s];
    var stack' := stack + [Frame(kinds[s].id, k)];
    assert stack'[..|stack'| - 1] == stack;
    var body, more, tail := Visits(kinds, pairs, s + 1, e), Repeated(k - 1, Round(kinds, pairs, e)),
        Rest(kinds, pairs, e + 1, stack);
    assert Rest(kinds, pairs, s + 1, stack') == body + ([e] + (more + tail));
    assert body + ([e] + (more + tail)) == ((body + [e]) + more) + tail;
  }

  /** What is left at the end of a loop, with the loop's own frame on top. */
  lemma RestAtEnd(kinds: seq<Kind>, pairs: map<nat, nat>, e: nat, stack: seq<Frame>, top: Frame)
    requires IsEnd(kinds, e) && top.id == kinds[e].id
    ensures Rest(kinds, pairs, e, stack + [top])
              == [e] + (Repeated(top.remaining - 1, Round(kinds, pairs, e)) + Rest(kinds, pairs, e + 1, stack))
  {
    var stack' := stack + [top];
    assert stack'[..|stack'| - 1] == stack;
    assert Close(kinds, pairs, e) == e && Visits(kinds, pairs, e, e) == [];
    assert Rest(kinds, pairs, e, stack') == [] + ([e] + AfterEnd(kinds, pairs, e, stack'));
  }

  lemma NoRounds(k: int, round: seq<nat>, tail: seq<nat>)
    requires k <= 0
    ensures Repeated(k, round) + tail == tail
  {
  }

  lemma RestSkipping(kinds: seq<Kind>, pairs: map<nat, nat>, s: nat, stack: seq<Frame>)
    requires LoopAt(kinds, pairs, s) && kinds[s].count <= 0
    ensures UsesUp(kinds, pairs, s, stack, pairs[s] + 1, stack)
  {
    RestAtStart(kinds, pairs, s, stack);
    NoRounds(kinds[s].count, Round(kinds, pairs, pairs[s]), Rest(kinds, pairs, pairs[s] + 1, stack));
  }

  lemma RestEntering(kinds: seq<Kind>, pairs: map<nat, nat>, s: nat, stack: seq<Frame>)
    requires LoopAt(kinds, pairs, s) && kinds[s].count > 0
    ensures UsesUp(kinds, pairs, s, stack, s + 1, stack + [Frame(kinds[s].id, kinds[s].count)])
  {
    RestAtStart(kinds, pairs, s, stack);
    RestInBody(kinds, pairs, s, stack, kinds[s].count);
  }

  lemma RestPastStart(kinds: seq<Kind>, pairs: map<nat, nat>, st: State, id: string, count: int)
    requires 0 <= st.pc < |kinds| && kinds[st.pc] == LoopStart(id, count) && count >= 0 && LoopAt(kinds, pairs, st.pc)
    ensures var st' := StartStep(pairs, |kinds|, st, id, count);
            UsesUp(kinds, pairs, st.pc, st.stack, st'.pc, st'.stack)
  {
    if count > 0 { RestEntering(kinds, pairs, st.pc, st.stack); } else { RestSkipping(kinds, pairs, st.pc, st.stack); }
  }

  lemma RestGoingBack(kinds: seq<Kind>, pairs: map<nat, nat>, s: nat, stack: seq<Frame>, k: int)
    requires LoopAt(kinds, pairs, s) && k > 1
    ensures UsesUp(kinds, pairs, pairs[s], stack + [Frame(kinds[s].id, k)], s + 1, stack + [Frame(kinds[s].id, k - 1)])
  {
    RestAtEnd(kinds, pairs, pairs[s], stack, Frame(kinds[s].id, k));
    RestInBody(kinds, pairs, s, stack, k - 1);
  }

  lemma RestLeaving(kinds: seq<Kind>, pairs: map<nat, nat>, e: nat, stack: seq<Frame>, top: Frame)
    requires IsEnd(kinds, e) && top.id == kinds[e].id && top.remaining <= 1
    ensures UsesUp(kinds, pairs, e, stack + [top], e + 1, stack)
  {
    RestAtEnd(kinds, pairs, e, stack, top);
    NoRounds(top.remaining - 1, Round(kinds, pairs, e), Rest(kinds, pairs, e + 1, stack));
  }

  /** The end of a loop with its own frame on top goes back to the first step or leaves the loop. */
  lemma EndStepIs(pairs: map<nat, nat>, n: nat, st: State, id: string, s: nat, below: seq<Frame>, top: Frame)
    requires 0 <= st.pc && st.stack == below + [top] && top.id == id && StartOf(pairs, st.pc, 0, n) == s
    ensures EndStep(pairs, n, st, id)
              == Going(if top.remaining > 1
                       then st.(pc := s + 1, stack := below + [Frame(id, top.remaining - 1)])
                       else st.(pc := st.pc + 1, stack := below))
  {
    assert st.stack[..|st.stack| - 1] == below;
  }

  lemma RestPastEnd(kinds: seq<Kind>, pairs: map<nat, nat>, st: State, id: string, s: nat, below: seq<Frame>,
      top: Frame)
    requires 0 <= st.pc < |kinds| && kinds[st.pc] == LoopEnd(id) && LoopAt(kinds, pairs, s) && pairs[s] == st.pc
    requires st.stack == below + [top] && top.id == id
    ensures var c := EndStep(pairs, |kinds|, st, id);
            c.Going? && UsesUp(kinds, pairs, st.pc, st.stack, c.st.pc, c.st.stack)
  {
    EndStepIs(pairs, |kinds|, st, id, s, below, top);
    if top.remaining > 1 {
      RestGoingBack(kinds, pairs, s, below, top.remaining);
    } else {
      RestLeaving(kinds, pairs, st.pc, below, top);
    }
  }

  // ---- termination and the bound on attempts ----

  /** The attempts of one step: at least one unless an interrupt is up, and at most one more than its retries. */
  lemma {:induction false} TriesBounds(env: Env, st: State, left: nat)
    requires left >= 1
    ensures var st' := Tries(env, st, left).1;
            && st' == st.(attempts := st'.attempts, checks := st'.checks)
            && st.attempts <= st'.attempts <= st.attempts + left && st.checks <= st'.checks
            && (st'.attempts > st.attempts || env.Raised(st'.checks))
    decreases left
  {
    if left > 1 && !env.Raised(st.checks) && !env.succeeds(st.attempts) {
      TriesBounds(env, st.(checks := st.checks + 1, attempts := st.attempts + 1), left - 1);
    }
  }

  function Left(budget: int, attempts: nat): nat {
    if attempts >= budget then 0 else budget - attempts
  }

  /** A turn that goes on makes an attempt, ends by interrupt next, or uses up one step of what is left. */
  ghost predicate Progress(p: Program, env: Env, st: State, st': State) {
    || st'.attempts > st.attempts
    || (!env.Raised(st.checks) && env.Raised(st'.checks) && st'.attempts == st.attempts)
    || (st'.attempts == st.attempts && st'.checks > st.checks
        && UsesUp(p.kinds, p.pairEnd, st.pc, st.stack, st'.pc, st'.stack))
  }

  ghost predicate Counts(kinds: seq<Kind>) {
    forall i :: 0 <= i < |kinds| && kinds[i].LoopStart? ==> kinds[i].count >= 0
  }

  /** What a turn does to the counters, and that it makes progress if it goes on. */
  ghost predicate Advances(p: Program, env: Env, budget: int, st: State, c: Config) {
    && c.st.attempts >= st.attempts && c.st.checks >= st.checks
    && (c.Going? ==> !env.Raised(st.checks) && st.attempts < budget && Progress(p, env, st, c.st))
    && c.st.attempts <= (if st.attempts < budget then budget + MAX_RETRIES else st.attempts)
  }

  predicate Tabled(p: Program) {
    |p.next| == |p.onError| == |p.retries| == |p.kinds|
  }

  lemma ExecProgress(p: Program, env: Env, budget: int, st: State)
    requires Tabled(p) && 0 <= st.pc < |p.kinds| && p.kinds[st.pc].Exec? && p.retries[st.pc] <= MAX_RETRIES
    ensures Advances(p, env, budget, st, Turn(p, env, budget, st))
  {
    TriesBounds(env, st.(checks := st.checks + 1, trace := st.trace + [st.pc]), p.retries[st.pc] + 1);
  }

  lemma StartProgress(p: Program, env: Env, budget: int, st: State)
    requires Tabled(p) && 0 <= st.pc < |p.kinds| && p.kinds[st.pc].LoopStart? && p.kinds[st.pc].count >= 0
    requires LoopAt(p.kinds, p.pairEnd, st.pc)
    ensures Advances(p, env, budget, st, Turn(p, env, budget, st))
  {
    var here := st.(checks := st.checks + 1, trace := st.trace + [st.pc]);
    RestPastStart(p.kinds, p.pairEnd, here, p.kinds[st.pc].id, p.kinds[st.pc].count);
  }

  lemma EndProgress(p: Program, env: Env, budget: int, st: State, s: nat)
    requires Tabled(p) && 0 <= st.pc < |p.kinds| && p.kinds[st.pc].LoopEnd?
    requires LoopAt(p.kinds, p.pairEnd, s) && p.pairEnd[s] == st.pc
    ensures Advances(p, env, budget, st, Turn(p, env, budget, st))
  {
    var here := st.(checks := st.checks + 1, trace := st.trace + [st.pc]);
    var id, k := p.kinds[st.pc].id, |st.stack| - 1;
    if st.stack != [] && st.stack[k].id == id {
      assert st.stack == st.stack[..k] + [st.stack[k]];
      RestPastEnd(p.kinds, p.pairEnd, here, id, s, st.stack[..k], st.stack[k]);
    }
  }

  lemma TurnProgress(p: Program, env: Env, budget: int, st: State)
    requires Wf(p) && Counts(p.kinds)
    ensures Advances(p, env, budget, st, Turn(p, env, budget, st))
  {
    if 0 <= st.pc < |p.kinds| {
      match p.kinds[st.pc]
      case Exec => ExecProgress(p, env, budget, st);
      case LoopStart(_, _) =>
        LoopAtStart(p.kinds, p.pairEnd, st.pc);
        StartProgress(p, env, budget, st);
      case LoopEnd(_) =>
        var s := LoopAtEnd(p.kinds, p.pairEnd, st.pc);
        EndProgress(p, env, budget, st, s);
    }
  }

  /**
   * The whole run from a state, whatever its loop stack: its exit code and final state. That this function
   * is well defined is the termination of every run.
   */
  ghost function RunFrom(p: Program, env: Env, budget: int, st: State): (r: (int, State))
    requires Wf(p) && Counts(p.kinds)
    ensures r.1.attempts <= (if st.attempts < budget then budget + MAX_RETRIES else st.attempts)
    decreases if env.Raised(st.checks) then 0 else 1, Left(budget, st.attempts),
              |Rest(p.kinds, p.pairEnd, st.pc, st.stack)|
  {
    var c := Turn(p, env, budget, st);
    TurnProgress(p, env, budget, st);
    if c.Done? then (c.code, c.st) else RunFrom(p, env, budget, c.st)
  }

  // ---- the runner, updating its counters in place ----

  class Runner {
    const p: Program
    const env: Env
    const budget: int
    var stepCount: nat
    var checks: nat
    var errorCount: nat
    ghost var trace: seq<nat>

    constructor (p: Program, env: Env, budget: int)
      ensures this.p == p && this.env == env && this.budget == budget && At(0, []) == START
    {
      this.p, this.env, this.budget := p, env, budget;
      stepCount, checks, errorCount, trace := 0, 0, 0, [];
    }

    ghost function At(pc: int, stack: seq<Frame>): State
      reads this
    {
      State(pc, stack, stepCount, checks, errorCount, trace)
    }

    method RunStep(idx: nat, ghost stack: seq<Frame>) returns (ok: bool)
      requires idx < |p.retries|
      modifies this`stepCount, this`checks
      ensures (ok, At(idx, stack)) == Tries(env, old(At(idx, stack)), p.retries[idx] + 1)
    {
      var left := p.retries[idx] + 1;
      while left > 0
        invariant Tries(env, old(At(idx, stack)), p.retries[idx] + 1) == Tries(env, At(idx, stack), left)
      {
        checks := checks + 1;
        if env.Raised(checks - 1) { return false; }
        stepCount := stepCount + 1;
        if env.succeeds(stepCount - 1) { return true; }
        left := left - 1;
      }
      ok := false;
    }

    method LoopEndTurn(pc: nat, stack: seq<Frame>, id: string) returns (done: bool, pc': int, stack': seq<Frame>)
      ensures EndStep(p.pairEnd, |p.kinds|, At(pc, stack), id)
                == if done then Done(EXIT_CONFIG, At(pc', stack')) else Going(At(pc', stack'))
    {
      var k := |stack| - 1;
      if stack == [] || stack[k].id != id { return true, pc, stack; }
      if stack[k].remaining > 1 {
        return false, StartOf(p.pairEnd, pc, 0, |p.kinds|) + 1, stack[..k] + [Frame(id, stack[k].remaining - 1)];
      }
      return false, pc + 1, stack[..k];
    }

    method ExecTurn(pc: nat, ghost stack: seq<Frame>) returns (done: bool, pc': int)
      requires pc < |p.kinds| && |p.next| == |p.onError| == |p.retries| == |p.kinds|
      modifies this`stepCount, this`checks, this`errorCount
      ensures ExecStep(p, env, old(At(pc, stack))) ==
              if done then Done(EXIT_FAIL, At(pc', stack)) else Going(At(pc', stack))
    {
      var ok := RunStep(pc, stack);
      if ok { return false, if p.next[pc] == STOP then |p.kinds| else p.next[pc]; }
      errorCount := errorCount + 1;
      if p.onError[pc] == FAIL { return true, pc; }
      return false, p.onError[pc];
    }

    /** One turn of the loop below. */
    method TakeTurn(pc: nat, stack: seq<Frame>) returns (done: bool, code: int, pc': int, stack': seq<Frame>)
      requires pc < |p.kinds| && |p.next| == |p.onError| == |p.retries| == |p.kinds|
      modifies this
      ensures Turn(p, env, budget, old(At(pc, stack))) ==
              if done then Done(code, At(pc', stack')) else Going(At(pc', stack'))
    {
      code, pc', stack' := EXIT_OK, pc, stack;
      if env.Raised(checks) { return true, if env.sigint then EXIT_INT else EXIT_TERM, pc, stack; }
      if stepCount >= budget { return true, EXIT_FAIL, pc, stack; }
      checks := checks + 1;
      trace := trace + [pc];
      match p.kinds[pc]
      case LoopStart(id, count) =>
        done := false;
        if count == 0 {
          pc' := EndOf(p.pairEnd, pc, |p.kinds|) + 1;
        } else {
          pc', stack' := pc + 1, stack + [Frame(id, count)];
        }
      case LoopEnd(id) =>
        code := EXIT_CONFIG;
        done, pc', stack' := LoopEndTurn(pc, stack, id);
      case Exec =>
        code := EXIT_FAIL;
        done, pc' := ExecTurn(pc, stack);
    }

    /** Runs the chain to its end; the exit code and the final state are those of the model. */
    method Run() returns (code: int, ghost fin: State)
      requires Wf(p) && Counts(p.kinds) && At(0, []) == START
      modifies this
      ensures (code, fin) == RunFrom(p, env, budget, START) && fin == At(fin.pc, fin.stack)
    {
      var pc: int, loopStack: seq<Frame> := 0, [];
      while 0 <= pc < |p.kinds|
        invariant RunFrom(p, env, budget, START) == RunFrom(p, env, budget, At(pc, loopStack))
        decreases if env.Raised(checks) then 0 else 1, Left(budget, stepCount),
                  |Rest(p.kinds, p.pairEnd, pc, loopStack)|
      {
        TurnProgress(p, env, budget, At(pc, loopStack));
        var done;
        done, code, pc, loopStack := TakeTurn(pc, loopStack);
        if done { return code, At(pc, loopStack); }
      }
      return EXIT_OK, At(pc, loopStack);
    }
  }
}
