/** What runs of accepted chains do: stack discipline, unrolling, termination and the attempt budget. */
module ChainTheorems {
  import opened Bytes
  import opened Chain
  import opened ChainRun

  /** The state after `k` turns, or where the run ended before. */
  function After(p: Program, env: Env, budget: int, st: State, k: nat): Config
    requires |p.next| == |p.onError| == |p.retries| == |p.kinds|
  {
    if k == 0 then Going(st)
    else
      match After(p, env, budget, st, k - 1)
      case Going(st') => Turn(p, env, budget, st')
      case Done(code, st') => Done(code, st')
  }

  lemma AcceptedIsWf(raw: seq<RawStep>, p: Program)
    requires Accepts(raw, p)
    ensures Wf(p) && Counts(p.kinds)
  {
    forall i | 0 <= i < |p.retries| ensures p.retries[i] <= MAX_RETRIES {
      assert CompiledAt(raw, p, i) && StepOk(raw[i]);
    }
    forall i | 0 <= i < |p.kinds| && p.kinds[i].LoopStart? ensures p.kinds[i].count >= 0 {
      assert StepOk(raw[i]);
    }
  }

  /**
   * Every run of every accepted chain ends (the run function is total) after at most `budget + 20` attempts,
   * and after none when the budget is not positive.
   */
  lemma AttemptsBounded(raw: seq<RawStep>, p: Program, env: Env, budget: int)
    requires Accepts(raw, p)
    ensures Wf(p) && Counts(p.kinds)
    ensures RunFrom(p, env, budget, START).1.attempts <= if budget > 0 then budget + MAX_RETRIES else 0
  {
    AcceptedIsWf(raw, p);
  }

  /** Between two attempts at most as many turns pass as are left to visit, from any loop stack. */
  lemma {:induction false} LoopTurnsBounded(p: Program, env: Env, budget: int, st: State, k: nat)
    requires Wf(p) && Counts(p.kinds) && !env.Raised(st.checks)
    ensures var c := After(p, env, budget, st, k);
            && c.st.attempts >= st.attempts
            && (c.Going? && c.st.attempts == st.attempts && !env.Raised(c.st.checks) ==>
                  k + |Rest(p.kinds, p.pairEnd, c.st.pc, c.st.stack)| == |Rest(p.kinds, p.pairEnd, st.pc, st.stack)|)
  {
    if k == 0 {
    } else {
      LoopTurnsBounded(p, env, budget, st, k - 1);
      var c := After(p, env, budget, st, k - 1);
      if c.Going? { TurnProgress(p, env, budget, c.st); }
    }
  }

  // ---- the loop stack ----

  /** The starts of the loops around step `i`, outermost first, among the steps before `k`. */
  function Around(pairs: map<nat, nat>, i: int, k: nat): seq<nat> {
    if k == 0 then []
    else Around(pairs, i, k - 1) + if In(pairs, k - 1, i) then [k - 1] else []
  }

  lemma {:induction false} SameAround(pairs: map<nat, nat>, i: int, j: int, k: nat)
    requires forall t: nat :: In(pairs, t, i) <==> In(pairs, t, j)
    ensures Around(pairs, i, k) == Around(pairs, j, k)
  {
    if k == 0 {
    } else {
      SameAround(pairs, i, j, k - 1);
    }
  }

  lemma {:induction false} OneMoreAround(pairs: map<nat, nat>, i: int, j: int, s: nat, k: nat)
    requires forall t: nat :: In(pairs, t, j) <==> In(pairs, t, i) || t == s
    requires forall t: nat :: In(pairs, t, i) ==> t < s
    ensures Around(pairs, j, k) == Around(pairs, i, k) + if s < k then [s] else []
  {
    if k == 0 {
    } else {
      OneMoreAround(pairs, i, j, s, k - 1);
      assert k - 1 > s ==> !In(pairs, k - 1, j);
    }
  }

  /** The frames on the stack are those of the loops around the program counter, in order. */
  ghost predicate StackMatches(p: Program, pc: int, stack: seq<Frame>) {
    0 <= pc < |p.kinds| ==>
      var around := Around(p.pairEnd, pc, |p.kinds|);
      |stack| == |around| && forall k :: 0 <= k < |stack| ==> stack[k].id == LoopId(p.kinds, around[k])
  }

  predicate SameLoopsAt(p: Program, i: nat, tgt: int) {
    0 <= tgt < |p.kinds| ==> forall t :: t in p.pairEnd ==> (In(p.pairEnd, t, tgt) <==> In(p.pairEnd, t, i))
  }

  /** Ordinary steps jump only to steps inside exactly the same loops, or out of the chain. */
  ghost predicate JumpsStayInLoops(p: Program) {
    && |p.next| == |p.onError| == |p.kinds|
    && forall i :: 0 <= i < |p.kinds| && p.kinds[i].Exec? ==>
        SameLoopsAt(p, i, p.next[i]) && SameLoopsAt(p, i, p.onError[i])
  }

  /** Entering a loop puts it around, up to and including its end; past the end it is gone. */
  ghost predicate AroundAt(p: Program, s: nat) {
    var n := |p.kinds|;
    && LoopAt(p.kinds, p.pairEnd, s)
    && Around(p.pairEnd, s + 1, n) == Around(p.pairEnd, s, n) + [s]
    && Around(p.pairEnd, p.pairEnd[s], n) == Around(p.pairEnd, s, n) + [s]
    && Around(p.pairEnd, p.pairEnd[s] + 1, n) == Around(p.pairEnd, s, n)
  }

  lemma AroundLoop(p: Program, s: nat)
    requires Pairing(p.kinds, p.pairEnd) && IsStart(p.kinds, s)
    ensures AroundAt(p, s)
  {
    LoopAtStart(p.kinds, p.pairEnd, s);
    var pairs := p.pairEnd;
    assert IsLoop(p.kinds, s, pairs[s]);
    var first, last, after := s + 1, pairs[s], pairs[s] + 1;
    forall t: nat
      ensures In(pairs, t, first) <==> In(pairs, t, s) || t == s
      ensures In(pairs, t, last) <==> In(pairs, t, s) || t == s
      ensures In(pairs, t, after) <==> In(pairs, t, s)
    {
      InLoop(p.kinds, pairs, s, t);
    }
    OneMoreAround(pairs, s, first, s, |p.kinds|);
    OneMoreAround(pairs, s, last, s, |p.kinds|);
    SameAround(pairs, after, s, |p.kinds|);
  }

  lemma StartKeepsStack(p: Program, st: State, id: string, count: int)
    requires 0 <= st.pc < |p.kinds| && p.kinds[st.pc] == LoopStart(id, count) && AroundAt(p, st.pc)
    requires StackMatches(p, st.pc, st.stack)
    ensures var st' := StartStep(p.pairEnd, |p.kinds|, st, id, count); StackMatches(p, st'.pc, st'.stack)
  {
  }

  /** With a matching stack, a loop end finds its own frame on top. */
  lemma EndKeepsStack(p: Program, st: State, id: string, s: nat)
    requires 0 <= st.pc < |p.kinds| && p.kinds[st.pc] == LoopEnd(id) && AroundAt(p, s) && p.pairEnd[s] == st.pc
    requires StackMatches(p, st.pc, st.stack)
    ensures var c := EndStep(p.pairEnd, |p.kinds|, st, id); c.Going? && StackMatches(p, c.st.pc, c.st.stack)
  {
    var around := Around(p.pairEnd, st.pc, |p.kinds|);
    assert around[|around| - 1] == s && around[..|around| - 1] == Around(p.pairEnd, st.pc + 1, |p.kinds|);
  }

  lemma JumpKeepsStack(p: Program, i: nat, tgt: int, stack: seq<Frame>)
    requires i < |p.kinds| && SameLoopsAt(p, i, tgt) && StackMatches(p, i, stack)
    ensures StackMatches(p, tgt, stack)
  {
    if 0 <= tgt < |p.kinds| {
      forall t: nat ensures In(p.pairEnd, t, tgt) <==> In(p.pairEnd, t, i) {
        assert In(p.pairEnd, t, tgt) || In(p.pairEnd, t, i) ==> t in p.pairEnd;
      }
      SameAround(p.pairEnd, tgt, i, |p.kinds|);
    }
  }

  lemma ExecKeepsStack(p: Program, env: Env, st: State)
    requires 0 <= st.pc < |p.kinds| && |p.next| == |p.onError| == |p.retries| == |p.kinds|
    requires SameLoopsAt(p, st.pc, p.next[st.pc]) && SameLoopsAt(p, st.pc, p.onError[st.pc])
             && StackMatches(p, st.pc, st.stack)
    ensures var c := ExecStep(p, env, st);
            && (c.Going? ==> StackMatches(p, c.st.pc, c.st.stack))
            && (c.Done? ==> c.code != EXIT_CONFIG)
  {
    TriesBounds(env, st, p.retries[st.pc] + 1);
    JumpKeepsStack(p, st.pc, p.next[st.pc], st.stack);
    JumpKeepsStack(p, st.pc, p.onError[st.pc], st.stack);
  }

  ghost predicate KeepsStack(p: Program, c: Config) {
    && (c.Going? ==> StackMatches(p, c.st.pc, c.st.stack))
    && (c.Done? ==> c.code != EXIT_CONFIG)
  }

  lemma LoopTurnKeepsStack(p: Program, env: Env, budget: int, st: State, s: nat)
    requires |p.next| == |p.onError| == |p.retries| == |p.kinds| && 0 <= st.pc < |p.kinds|
             && StackMatches(p, st.pc, st.stack)
    requires AroundAt(p, s) && (st.pc == s || st.pc == p.pairEnd[s])
    ensures KeepsStack(p, Turn(p, env, budget, st))
  {
    var here := st.(checks := st.checks + 1, trace := st.trace + [st.pc]);
    match p.kinds[st.pc]
    case LoopStart(id, count) => StartKeepsStack(p, here, id, count);
    case LoopEnd(id) => EndKeepsStack(p, here, id, s);
  }

  lemma TurnKeepsStack(p: Program, env: Env, budget: int, st: State)
    requires Wf(p) && JumpsStayInLoops(p) && StackMatches(p, st.pc, st.stack)
    ensures KeepsStack(p, Turn(p, env, budget, st))
  {
    if 0 <= st.pc < |p.kinds| {
      match p.kinds[st.pc]
      case Exec => ExecKeepsStack(p, env, st.(checks := st.checks + 1, trace := st.trace + [st.pc]));
      case LoopStart(_, _) =>
        AroundLoop(p, st.pc);
        LoopTurnKeepsStack(p, env, budget, st, st.pc);
      case LoopEnd(_) =>
        var s := LoopAtEnd(p.kinds, p.pairEnd, st.pc);
        AroundLoop(p, s);
        LoopTurnKeepsStack(p, env, budget, st, s);
    }
  }

  /**
   * When jumps stay in their loops, the loop stack matches the loops around the program counter after any
   * number of turns, and the run never ends with the desync exit.
   */
  lemma {:induction false} StackAlwaysMatches(p: Program, env: Env, budget: int, k: nat)
    requires Wf(p) && JumpsStayInLoops(p)
    ensures var c := After(p, env, budget, START, k);
            && (c.Going? ==> StackMatches(p, c.st.pc, c.st.stack))
            && (c.Done? ==> c.code != EXIT_CONFIG)
  {
    if k == 0 {
      NothingAround(p.pairEnd, |p.kinds|);
    } else {
      StackAlwaysMatches(p, env, budget, k - 1);
      var c := After(p, env, budget, START, k - 1);
      if c.Going? { TurnKeepsStack(p, env, budget, c.st); }
    }
  }

  lemma {:induction false} NothingAround(pairs: map<nat, nat>, k: nat)
    ensures Around(pairs, 0, k) == []
  {
    if k == 0 {
    } else {
      NothingAround(pairs, k - 1);
    }
  }

  lemma {:induction false} NoDesyncFrom(p: Program, env: Env, budget: int, st: State)
    requires Wf(p) && Counts(p.kinds) && JumpsStayInLoops(p) && StackMatches(p, st.pc, st.stack)
    ensures RunFrom(p, env, budget, st).0 != EXIT_CONFIG
    decreases if env.Raised(st.checks) then 0 else 1, Left(budget, st.attempts),
              |Rest(p.kinds, p.pairEnd, st.pc, st.stack)|
  {
    TurnProgress(p, env, budget, st);
    TurnKeepsStack(p, env, budget, st);
    var c := Turn(p, env, budget, st);
    if c.Going? { NoDesyncFrom(p, env, budget, c.st); }
  }

  /** The condition in terms of the ids the compiler compares, for chains with distinct loop ids. */
  lemma SameIdsSameLoops(p: Program, i: nat, tgt: int)
    requires Pairing(p.kinds, p.pairEnd)
    requires DistinctIds(p)
    requires Enclosing(p.kinds, p.pairEnd, tgt) == Enclosing(p.kinds, p.pairEnd, i)
    ensures SameLoopsAt(p, i, tgt)
  {
    forall t | t in p.pairEnd ensures In(p.pairEnd, t, tgt) <==> In(p.pairEnd, t, i) {
      assert In(p.pairEnd, t, tgt) ==> LoopId(p.kinds, t) in Enclosing(p.kinds, p.pairEnd, tgt);
      assert In(p.pairEnd, t, i) ==> LoopId(p.kinds, t) in Enclosing(p.kinds, p.pairEnd, i);
    }
  }

  ghost predicate DistinctIds(p: Program) {
    forall s, t :: s in p.pairEnd && t in p.pairEnd && s != t ==> LoopId(p.kinds, s) != LoopId(p.kinds, t)
  }

  predicate SameIdsAt(p: Program, i: nat, tgt: int) {
    0 <= tgt < |p.kinds| ==> Enclosing(p.kinds, p.pairEnd, tgt) == Enclosing(p.kinds, p.pairEnd, i)
  }

  /** With distinct ids, the jump check says exactly that no jump enters a loop the source is not part of. */
  lemma JumpCheckExact(p: Program, src: nat, tgt: int)
    requires Pairing(p.kinds, p.pairEnd) && DistinctIds(p)
    ensures JumpOk(p.kinds, p.pairEnd, src, tgt) <==>
              (0 <= tgt < |p.kinds| ==> forall t: nat :: In(p.pairEnd, t, tgt) ==> t <= src <= p.pairEnd[t])
  {
    if 0 <= tgt < |p.kinds| {
      var inner, outer := Enclosing(p.kinds, p.pairEnd, tgt), EnclosingSelf(p.kinds, p.pairEnd, src);
      if inner <= outer {
        forall t: nat | In(p.pairEnd, t, tgt) ensures t <= src <= p.pairEnd[t] {
          assert LoopId(p.kinds, t) in inner;
        }
      } else {
        var id :| id in inner && id !in outer;
        var t :| t in p.pairEnd && t < tgt <= p.pairEnd[t] && LoopId(p.kinds, t) == id;
        assert In(p.pairEnd, t, tgt);
      }
    }
  }

  /**
   * An accepted chain with distinct loop ids whose ordinary steps jump only where the same loop ids are
   * around never reaches the desync exit.
   */
  lemma NeverDesyncs(raw: seq<RawStep>, p: Program, env: Env, budget: int)
    requires Accepts(raw, p) && DistinctIds(p)
    requires forall i :: 0 <= i < |p.kinds| && p.kinds[i].Exec? ==>
             SameIdsAt(p, i, p.next[i]) && SameIdsAt(p, i, p.onError[i])
    ensures Wf(p) && Counts(p.kinds) && JumpsStayInLoops(p)
    ensures RunFrom(p, env, budget, START).0 != EXIT_CONFIG
  {
    AcceptedIsWf(raw, p);
    forall i | 0 <= i < |p.kinds| && p.kinds[i].Exec?
      ensures SameLoopsAt(p, i, p.next[i]) && SameLoopsAt(p, i, p.onError[i])
    {
      if 0 <= p.next[i] < |p.kinds| { SameIdsSameLoops(p, i, p.next[i]); }
      if 0 <= p.onError[i] < |p.kinds| { SameIdsSameLoops(p, i, p.onError[i]); }
    }
    NothingAround(p.pairEnd, |p.kinds|);
    NoDesyncFrom(p, env, budget, START);
  }

  // ---- exactly when the stack stays right ----

  lemma {:induction false} AroundLists(pairs: map<nat, nat>, i: int, k: nat)
    ensures forall t: nat :: t in Around(pairs, i, k) <==> t < k && In(pairs, t, i)
  {
    if k == 0 {
    } else {
      AroundLists(pairs, i, k - 1);
    }
  }

  /** With distinct ids, a stack that is right at two steps shows that the same loops are around them. */
  lemma SameStackSameLoops(p: Program, i: nat, tgt: nat, stack: seq<Frame>)
    requires Pairing(p.kinds, p.pairEnd) && DistinctIds(p) && i < |p.kinds| && tgt < |p.kinds|
    requires StackMatches(p, i, stack) && StackMatches(p, tgt, stack)
    ensures SameLoopsAt(p, i, tgt)
  {
    var n := |p.kinds|;
    AroundLists(p.pairEnd, i, n);
    AroundLists(p.pairEnd, tgt, n);
    var here, there := Around(p.pairEnd, i, n), Around(p.pairEnd, tgt, n);
    forall k | 0 <= k < |stack| ensures here[k] == there[k] {
      assert here[k] in here && there[k] in there;
      assert LoopId(p.kinds, here[k]) == stack[k].id == LoopId(p.kinds, there[k]);
    }
    assert here == there;
    forall t | t in p.pairEnd ensures In(p.pairEnd, t, tgt) <==> In(p.pairEnd, t, i) {
      assert IsLoop(p.kinds, t, p.pairEnd[t]);
    }
  }

  /** The step taken from one state to the next stays in its loops, if it is an ordinary step. */
  predicate StaysInLoops(p: Program, st: State, st': State) {
    0 <= st.pc < |p.kinds| && p.kinds[st.pc].Exec? ==> SameLoopsAt(p, st.pc, st'.pc)
  }

  lemma JumpStackExact(p: Program, i: nat, tgt: int, stack: seq<Frame>)
    requires Pairing(p.kinds, p.pairEnd) && DistinctIds(p) && i < |p.kinds| && StackMatches(p, i, stack)
    ensures StackMatches(p, tgt, stack) <==> SameLoopsAt(p, i, tgt)
  {
    if SameLoopsAt(p, i, tgt) {
      JumpKeepsStack(p, i, tgt, stack);
    } else if StackMatches(p, tgt, stack) {
      SameStackSameLoops(p, i, tgt, stack);
    }
  }

  /** From a matching stack, a turn leads to a matching stack exactly when it stays in its loops. */
  lemma TurnStackExact(p: Program, env: Env, budget: int, st: State)
    requires Wf(p) && DistinctIds(p) && StackMatches(p, st.pc, st.stack) && Turn(p, env, budget, st).Going?
    ensures var st' := Turn(p, env, budget, st).st; StackMatches(p, st'.pc, st'.stack) <==> StaysInLoops(p, st, st')
  {
    var st' := Turn(p, env, budget, st).st;
    match p.kinds[st.pc]
    case Exec =>
      TriesBounds(env, st.(checks := st.checks + 1, trace := st.trace + [st.pc]), p.retries[st.pc] + 1);
      JumpStackExact(p, st.pc, st'.pc, st.stack);
    case LoopStart(_, _) =>
      AroundLoop(p, st.pc);
      LoopTurnKeepsStack(p, env, budget, st, st.pc);
    case LoopEnd(_) =>
      var s := LoopAtEnd(p.kinds, p.pairEnd, st.pc);
      AroundLoop(p, s);
      LoopTurnKeepsStack(p, env, budget, st, s);
  }

  ghost predicate MatchesAfter(p: Program, env: Env, budget: int, k: nat) {
    Tabled(p) &&
    var c := After(p, env, budget, START, k);
    c.Going? ==> StackMatches(p, c.st.pc, c.st.stack)
  }

  ghost predicate StaysAfter(p: Program, env: Env, budget: int, k: nat) {
    Tabled(p) &&
    var c, c' := After(p, env, budget, START, k), After(p, env, budget, START, k + 1);
    c.Going? && c'.Going? ==> StaysInLoops(p, c.st, c'.st)
  }

  lemma NextMatches(p: Program, env: Env, budget: int, k: nat)
    requires Wf(p) && DistinctIds(p) && MatchesAfter(p, env, budget, k)
    ensures MatchesAfter(p, env, budget, k + 1) <==> StaysAfter(p, env, budget, k)
  {
    var c, c' := After(p, env, budget, START, k), After(p, env, budget, START, k + 1);
    if c.Going? && c'.Going? {
      TurnStackExact(p, env, budget, c.st);
    }
  }

  lemma StartMatches(p: Program, env: Env, budget: int)
    requires Tabled(p)
    ensures MatchesAfter(p, env, budget, 0)
  {
    NothingAround(p.pairEnd, |p.kinds|);
  }

  /** Something that lasts from step to step exactly when a condition is met lasts while it is met. */
  lemma {:induction false} LastsExactly(holds: nat -> bool, stays: nat -> bool, n: nat)
    requires holds(0) && forall k: nat :: k < n && holds(k) ==> (holds(k + 1) <==> stays(k))
    ensures (forall k: nat :: k <= n ==> holds(k)) <==> (forall k: nat :: k < n ==> stays(k))
  {
    if n == 0 {
    } else {
      LastsExactly(holds, stays, n - 1);
      assert holds(n - 1) ==> (holds(n) <==> stays(n - 1));
    }
  }

  /**
   * The stack matches the loops around the program counter all along the first `n` turns of a run exactly
   * when no jump taken in those turns leaves a loop or enters one.
   */
  lemma StackExact(p: Program, env: Env, budget: int, n: nat)
    requires Wf(p) && DistinctIds(p)
    ensures (forall k: nat :: k <= n ==> MatchesAfter(p, env, budget, k))
              <==> (forall k: nat :: k < n ==> StaysAfter(p, env, budget, k))
  {
    var holds, stays := (k: nat) => MatchesAfter(p, env, budget, k), (k: nat) => StaysAfter(p, env, budget, k);
    StartMatches(p, env, budget);
    forall k: nat | k < n && holds(k) ensures holds(k + 1) <==> stays(k) {
      NextMatches(p, env, budget, k);
    }
    LastsExactly(holds, stays, n);
    assert forall k: nat :: MatchesAfter(p, env, budget, k) == holds(k);
    assert forall k: nat :: StaysAfter(p, env, budget, k) == stays(k);
  }

  // ---- leaving a loop on error ----

  /** An inner loop whose step jumps past the loop's end when it fails. */
  function EscapingChain(): seq<RawStep> {
    [RawStep("A", LoopStart("a", 1), "next", "fail", 0), RawStep("B", LoopStart("b", 1), "next", "fail", 0),
     RawStep("X", Exec, "next", "Z", 0), RawStep("D", LoopEnd("b"), "next", "fail", 0),
     RawStep("Z", Exec, "next", "fail", 0), RawStep("E", LoopEnd("a"), "next", "fail", 0)]
  }

  function EscapingProgram(): Program {
    Program([LoopStart("a", 1), LoopStart("b", 1), Exec, LoopEnd("b"), Exec, LoopEnd("a")],
            [1, 2, 3, 4, 5, 6], [FAIL, FAIL, 4, FAIL, FAIL, FAIL], [0, 0, 0, 0, 0, 0], map[0 := 5, 1 := 3])
  }

  lemma EscapingPaired()
    ensures var p := EscapingProgram(); Pairing(p.kinds, p.pairEnd)
  {
    var p := EscapingProgram();
    assert p.pairEnd[0] == 5 && p.pairEnd[1] == 3;
    assert Closed(p.pairEnd, 5) && Closed(p.pairEnd, 3);
    forall s | s in p.pairEnd ensures IsLoop(p.kinds, s, p.pairEnd[s]) {
      assert s == 0 || s == 1;
    }
  }

  lemma EscapingDistinct()
    ensures DistinctIds(EscapingProgram())
  {
    var p := EscapingProgram();
    assert LoopId(p.kinds, 0)[0] == 'a' && LoopId(p.kinds, 1)[0] == 'b';
  }

  lemma EscapingNames()
    ensures FindName(EscapingChain(), "Z", 0) == 4
    ensures var raw := EscapingChain(); forall i, j :: 0 <= i < j < |raw| ==> raw[i].name != raw[j].name
  {
    var raw := EscapingChain();
    assert raw[0].name[0] == 'A' && raw[1].name[0] == 'B' && raw[2].name[0] == 'X';
    assert raw[3].name[0] == 'D' && raw[4].name[0] == 'Z' && raw[5].name[0] == 'E';
    assert raw[4].name == "Z";
  }

  lemma EscapingTarget(i: nat)
    requires i < 6
    ensures CompiledAt(EscapingChain(), EscapingProgram(), i)
  {
    var raw, p := EscapingChain(), EscapingProgram();
    EscapingNames();
    assert "next"[0] == 'n' && "fail"[0] == 'f' && "prev"[0] == 'p' && "stop"[0] == 's';
    assert Means(raw, i, raw[i].next, p.next[i]);
    assert Means(raw, i, raw[i].onError, p.onError[i]);
  }

  lemma EscapingAccepted()
    ensures Accepts(EscapingChain(), EscapingProgram())
  {
    EscapingPaired();
    EscapingNames();
    forall i | 0 <= i < 6 ensures CompiledAt(EscapingChain(), EscapingProgram(), i) { EscapingTarget(i); }
    assert EscapingProgram().kinds == Kinds(EscapingChain());
  }

  /**
   * Without the restriction on jumps an accepted chain with distinct ids can desync: the failing step leaves
   * the inner loop but not its frame, so the end of the outer loop finds the wrong frame on top.
   */
  lemma DesyncExample(env: Env)
    requires env.raisedAt == None && !env.succeeds(0) && env.succeeds(1)
    ensures var p := EscapingProgram();
            && Accepts(EscapingChain(), p) && DistinctIds(p) && Wf(p) && Counts(p.kinds)
            && RunFrom(p, env, 10, START).0 == EXIT_CONFIG
  {
    EscapingDistinct();
    EscapingAccepted();
    AcceptedIsWf(EscapingChain(), EscapingProgram());
    EscapingTurns(env);
    RunFromAfter(EscapingProgram(), env, 10, START, 5);
  }

  lemma EscapingTurns(env: Env)
    requires env.raisedAt == None && !env.succeeds(0) && env.succeeds(1)
    ensures var c := After(EscapingProgram(), env, 10, START, 5); c.Done? && c.code == EXIT_CONFIG
  {
    var p := EscapingProgram();
    IntoTheLoops(env);
    OutOfTheInner(env);
    assert After(p, env, 10, START, 1) == Going(State(1, [Frame("a", 1)], 0, 1, 0, [0]));
    assert After(p, env, 10, START, 2) == Going(State(2, BothLoops(), 0, 2, 0, [0, 1]));
    assert After(p, env, 10, START, 3) == Going(State(4, BothLoops(), 1, 4, 1, [0, 1, 2]));
  }

  function BothLoops(): seq<Frame> {
    [Frame("a", 1), Frame("b", 1)]
  }

  lemma IntoTheLoops(env: Env)
    requires env.raisedAt == None
    ensures var p, s1 := EscapingProgram(), State(1, [Frame("a", 1)], 0, 1, 0, [0]);
            && Turn(p, env, 10, START) == Going(s1)
            && Turn(p, env, 10, s1) == Going(State(2, BothLoops(), 0, 2, 0, [0, 1]))
  {
  }

  lemma OutOfTheInner(env: Env)
    requires env.raisedAt == None && !env.succeeds(0) && env.succeeds(1)
    ensures var p, s2 := EscapingProgram(), State(2, BothLoops(), 0, 2, 0, [0, 1]);
            var s3, s4 := State(4, BothLoops(), 1, 4, 1, [0, 1, 2]), State(5, BothLoops(), 2, 6, 1, [0, 1, 2, 4]);
            && Turn(p, env, 10, s2) == Going(s3) && Turn(p, env, 10, s3) == Going(s4)
            && Turn(p, env, 10, s4).Done? && Turn(p, env, 10, s4).code == EXIT_CONFIG
  {
    assert "a"[0] == 'a' && "b"[0] == 'b';
  }

  /** A run that is over after some number of turns ends the way it did there. */
  lemma {:induction false} RunFromAfter(p: Program, env: Env, budget: int, st: State, k: nat)
    requires Wf(p) && Counts(p.kinds)
    ensures var c := After(p, env, budget, st, k);
            RunFrom(p, env, budget, st) == if c.Done? then (c.code, c.st) else RunFrom(p, env, budget, c.st)
  {
    if k == 0 {
    } else {
      RunFromAfter(p, env, budget, st, k - 1);
    }
  }

  // ---- chains without jumps ----

  /** Every ordinary step goes on to the next one, and a failure ends the run. */
  predicate JumpFree(p: Program) {
    && |p.next| == |p.onError| == |p.kinds|
    && forall i :: 0 <= i < |p.kinds| && p.kinds[i].Exec? ==> p.next[i] == i + 1 && p.onError[i] == FAIL
  }

  lemma JumpFreeStaysInLoops(p: Program)
    requires Wf(p) && JumpFree(p)
    ensures JumpsStayInLoops(p)
  {
    forall i: nat | i < |p.kinds| && p.kinds[i].Exec?
      ensures SameLoopsAt(p, i, p.next[i]) && SameLoopsAt(p, i, p.onError[i])
    {
      forall t: nat | t in p.pairEnd ensures In(p.pairEnd, t, p.next[i]) <==> In(p.pairEnd, t, i) {
        InPastExec(p.kinds, p.pairEnd, i, t);
      }
    }
  }

  /** The nested loops of the chain, unrolled. */
  function Unrolled(p: Program): seq<nat> {
    Visits(p.kinds, p.pairEnd, 0, |p.kinds|)
  }

  /** What was visited and what is left make up the unrolled chain. */
  ghost predicate OnTrack(p: Program, st: State) {
    StackMatches(p, st.pc, st.stack) && st.trace + Rest(p.kinds, p.pairEnd, st.pc, st.stack) == Unrolled(p)
  }

  lemma StartsOnTrack(p: Program)
    requires Wf(p)
    ensures OnTrack(p, START)
  {
    NothingAround(p.pairEnd, |p.kinds|);
    assert [] + Unrolled(p) == Unrolled(p);
    NothingCloses(p, 0);
  }

  /** No loop is around step `i`. */
  ghost predicate Outside(p: Program, i: nat) {
    forall t: nat :: !In(p.pairEnd, t, i)
  }

  lemma OutsideAfter(p: Program, i: nat)
    requires Wf(p) && IsStart(p.kinds, i) && Outside(p, i)
    ensures i in p.pairEnd && i < p.pairEnd[i] < |p.kinds| && Outside(p, p.pairEnd[i] + 1)
  {
    assert IsLoop(p.kinds, i, p.pairEnd[i]);
    var j := p.pairEnd[i] + 1;
    forall t: nat ensures !In(p.pairEnd, t, j) { InLoop(p.kinds, p.pairEnd, i, t); }
  }

  lemma OutsideNext(p: Program, i: nat)
    requires Wf(p) && i < |p.kinds| && p.kinds[i].Exec? && Outside(p, i)
    ensures Outside(p, i + 1)
  {
    var j := i + 1;
    forall t: nat ensures !In(p.pairEnd, t, j) { InPastExec(p.kinds, p.pairEnd, i, t); }
  }

  lemma {:induction false} NothingCloses(p: Program, i: nat)
    requires Wf(p) && i <= |p.kinds| && Outside(p, i)
    ensures Close(p.kinds, p.pairEnd, i) == |p.kinds|
    decreases |p.kinds| - i
  {
    if i < |p.kinds| {
      match p.kinds[i]
      case Exec =>
        OutsideNext(p, i);
        NothingCloses(p, i + 1);
      case LoopStart(_, _) =>
        OutsideAfter(p, i);
        NothingCloses(p, p.pairEnd[i] + 1);
      case LoopEnd(_) =>
        var s := LoopAtEnd(p.kinds, p.pairEnd, i);
        assert In(p.pairEnd, s, i);
    }
  }

  ghost predicate VisitsHead(p: Program, st: State, st': State) {
    && st'.trace == st.trace + [st.pc] && st'.errors == st.errors
    && UsesUp(p.kinds, p.pairEnd, st.pc, st.stack, st'.pc, st'.stack)
  }

  lemma ExecVisitsHead(p: Program, env: Env, budget: int, st: State)
    requires |p.next| == |p.onError| == |p.retries| == |p.kinds| && 0 <= st.pc < |p.kinds| && p.kinds[st.pc].Exec?
    requires p.next[st.pc] == st.pc + 1 && p.onError[st.pc] == FAIL
    ensures var c := Turn(p, env, budget, st); c.Going? ==> VisitsHead(p, st, c.st)
  {
    RestPastExec(p.kinds, p.pairEnd, st.pc, st.stack);
    TriesBounds(env, st.(checks := st.checks + 1, trace := st.trace + [st.pc]), p.retries[st.pc] + 1);
  }

  lemma StartVisitsHead(p: Program, env: Env, budget: int, st: State)
    requires |p.next| == |p.onError| == |p.retries| == |p.kinds| && 0 <= st.pc < |p.kinds| && p.kinds[st.pc].LoopStart?
    requires p.kinds[st.pc].count >= 0 && LoopAt(p.kinds, p.pairEnd, st.pc)
    ensures var c := Turn(p, env, budget, st); c.Going? ==> VisitsHead(p, st, c.st)
  {
    var here := st.(checks := st.checks + 1, trace := st.trace + [st.pc]);
    RestPastStart(p.kinds, p.pairEnd, here, p.kinds[st.pc].id, p.kinds[st.pc].count);
  }

  lemma EndVisitsHead(p: Program, env: Env, budget: int, st: State, s: nat)
    requires |p.next| == |p.onError| == |p.retries| == |p.kinds| && 0 <= st.pc < |p.kinds| && p.kinds[st.pc].LoopEnd?
    requires LoopAt(p.kinds, p.pairEnd, s) && p.pairEnd[s] == st.pc
    ensures var c := Turn(p, env, budget, st); c.Going? ==> VisitsHead(p, st, c.st)
  {
    if st.stack != [] && st.stack[|st.stack| - 1].id == p.kinds[st.pc].id {
      var k := |st.stack| - 1;
      assert st.stack == st.stack[..k] + [st.stack[k]];
      RestPastEnd(p.kinds, p.pairEnd, st.(checks := st.checks + 1, trace := st.trace + [st.pc]), p.kinds[st.pc].id, s,
                  st.stack[..k], st.stack[k]);
    }
  }

  /** A turn that goes on in a chain without jumps visits the head of what is left and leaves the tail. */
  lemma GoingVisitsHead(p: Program, env: Env, budget: int, st: State)
    requires Wf(p) && Counts(p.kinds) && JumpFree(p)
    ensures var c := Turn(p, env, budget, st); c.Going? ==> VisitsHead(p, st, c.st)
  {
    if 0 <= st.pc < |p.kinds| {
      match p.kinds[st.pc]
      case Exec => ExecVisitsHead(p, env, budget, st);
      case LoopStart(_, _) =>
        LoopAtStart(p.kinds, p.pairEnd, st.pc);
        StartVisitsHead(p, env, budget, st);
      case LoopEnd(_) =>
        var s := LoopAtEnd(p.kinds, p.pairEnd, st.pc);
        EndVisitsHead(p, env, budget, st, s);
    }
  }

  /** How a run ends: past the chain with everything as it was, or with a failure, an interrupt or the budget. */
  lemma DoneHasReason(p: Program, env: Env, budget: int, st: State)
    requires |p.next| == |p.onError| == |p.retries| == |p.kinds|
    ensures var c := Turn(p, env, budget, st);
            c.Done? ==> && (c.st.trace == st.trace || (0 <= st.pc < |p.kinds| && c.st.trace == st.trace + [st.pc]))
                        && (c.code == EXIT_OK ==> c.st == st && !(0 <= st.pc < |p.kinds|))
                        && (c.code != EXIT_OK && c.code != EXIT_CONFIG ==>
                              c.st.errors > 0 || env.Raised(c.st.checks) || c.st.attempts >= budget)
  {
    if 0 <= st.pc < |p.kinds| && p.kinds[st.pc].Exec? {
      TriesBounds(env, st.(checks := st.checks + 1, trace := st.trace + [st.pc]), p.retries[st.pc] + 1);
    }
  }

  /** The step at the program counter is the next of the unrolled chain. */
  lemma NextOnTrack(p: Program, st: State)
    requires OnTrack(p, st) && 0 <= st.pc < |p.kinds|
    ensures |st.trace| < |Unrolled(p)| && st.trace <= Unrolled(p) && Unrolled(p)[|st.trace|] == st.pc
  {
    RestHead(p.kinds, p.pairEnd, st.pc, st.stack);
  }

  lemma RestHead(kinds: seq<Kind>, pairs: map<nat, nat>, pc: nat, stack: seq<Frame>)
    requires pc < |kinds|
    ensures Rest(kinds, pairs, pc, stack) != [] && Rest(kinds, pairs, pc, stack)[0] == pc
  {
    var e := Close(kinds, pairs, pc);
    if pc < e {
      var v := Visits(kinds, pairs, pc, e);
      assert v != [] && v[0] == pc;
    } else {
      assert Visits(kinds, pairs, pc, e) == [];
    }
  }

  /** One turn of a chain without jumps: on along the unrolled chain, or the end with a reason. */
  lemma JumpFreeTurn(p: Program, env: Env, budget: int, st: State)
    requires Wf(p) && Counts(p.kinds) && JumpFree(p) && OnTrack(p, st) && st.errors == 0
    ensures var c := Turn(p, env, budget, st);
            && (c.Going? ==> OnTrack(p, c.st) && c.st.errors == 0)
            && (c.Done? ==> c.st.trace <= Unrolled(p))
            && (c.Done? && c.code == EXIT_OK ==> c.st.trace == Unrolled(p))
            && (c.Done? && c.code != EXIT_OK ==> c.st.errors > 0 || env.Raised(c.st.checks) || c.st.attempts >= budget)
  {
    JumpFreeStaysInLoops(p);
    TurnKeepsStack(p, env, budget, st);
    DoneHasReason(p, env, budget, st);
    GoingVisitsHead(p, env, budget, st);
    var c := Turn(p, env, budget, st);
    if c.Going? {
      var tail := Rest(p.kinds, p.pairEnd, c.st.pc, c.st.stack);
      assert (st.trace + [st.pc]) + tail == st.trace + ([st.pc] + tail);
    } else if 0 <= st.pc < |p.kinds| {
      NextOnTrack(p, st);
    }
  }

  lemma {:induction false} OnTrackToTheEnd(p: Program, env: Env, budget: int, st: State)
    requires Wf(p) && Counts(p.kinds) && JumpFree(p) && OnTrack(p, st) && st.errors == 0
    ensures var (code, fin) := RunFrom(p, env, budget, st);
            && fin.trace <= Unrolled(p)
            && (code == EXIT_OK ==> fin.trace == Unrolled(p))
            && (code != EXIT_OK ==> fin.errors > 0 || env.Raised(fin.checks) || fin.attempts >= budget)
    decreases if env.Raised(st.checks) then 0 else 1, Left(budget, st.attempts),
              |Rest(p.kinds, p.pairEnd, st.pc, st.stack)|
  {
    var c := Turn(p, env, budget, st);
    TurnProgress(p, env, budget, st);
    JumpFreeTurn(p, env, budget, st);
    if c.Going? { OnTrackToTheEnd(p, env, budget, c.st); }
  }

  /**
   * A chain without jumps visits a prefix of its nested loops unrolled `count` times. It exits 0 only after
   * all of it, and it visits all of it unless a step fails, an interrupt arrives or the budget is used up.
   */
  lemma JumpFreeRunUnrolls(raw: seq<RawStep>, p: Program, env: Env, budget: int)
    requires Accepts(raw, p) && JumpFree(p)
    ensures Wf(p) && Counts(p.kinds)
    ensures var (code, fin) := RunFrom(p, env, budget, START);
            && fin.trace <= Unrolled(p)
            && (code == EXIT_OK ==> fin.trace == Unrolled(p))
            && (fin.errors == 0 && !env.Raised(fin.checks) && fin.attempts < budget ==> code == EXIT_OK)
  {
    AcceptedIsWf(raw, p);
    StartsOnTrack(p);
    OnTrackToTheEnd(p, env, budget, START);
  }

  // ---- the budget ----

  function ExecCount(kinds: seq<Kind>, visited: seq<nat>): nat {
    if visited == [] then 0
    else
      var n := |visited| - 1;
      ExecCount(kinds, visited[..n]) + if visited[n] < |kinds| && kinds[visited[n]].Exec? then 1 else 0
  }

  lemma {:induction false} ExecCountGrows(kinds: seq<Kind>, visited: seq<nat>, k: nat)
    requires k <= |visited|
    ensures ExecCount(kinds, visited[..k]) <= ExecCount(kinds, visited)
  {
    var n := |visited|;
    assert visited[..n] == visited;
    if k < n {
      assert visited[..n - 1][..k] == visited[..k];
      ExecCountGrows(kinds, visited[..n - 1], k);
    }
  }

  lemma ExecCountAppend(kinds: seq<Kind>, visited: seq<nat>, pc: nat)
    ensures ExecCount(kinds, visited + [pc]) == ExecCount(kinds, visited)
                                                  + if pc < |kinds| && kinds[pc].Exec? then 1 else 0
  {
    assert (visited + [pc])[..|visited|] == visited;
  }

  ghost predicate Smooth(env: Env) {
    env.raisedAt.None? && forall k :: env.succeeds(k)
  }

  lemma SmoothTurn(p: Program, env: Env, budget: int, st: State)
    requires |p.next| == |p.onError| == |p.retries| == |p.kinds| && Smooth(env)
    ensures var c := Turn(p, env, budget, st);
            && (c.Going? ==> 0 <= st.pc < |p.kinds| && st.attempts < budget
                             && c.st.attempts == st.attempts + if p.kinds[st.pc].Exec? then 1 else 0)
            && (c.Done? && c.code != EXIT_CONFIG ==>
                  c.st == st && (c.code == EXIT_OK <==> !(0 <= st.pc < |p.kinds|))
                      && (c.code != EXIT_OK ==> st.attempts >= budget))
  {
  }

  /** A run on its way: the attempts are the steps tried so far, and the budget held up to the last one. */
  ghost predicate WithinBudget(p: Program, budget: int, st: State) {
    && OnTrack(p, st) && st.errors == 0 && st.attempts == ExecCount(p.kinds, st.trace)
    && (st.trace != [] ==> ExecCount(p.kinds, st.trace[..|st.trace| - 1]) < budget)
  }

  lemma BudgetStep(p: Program, env: Env, budget: int, st: State)
    requires Wf(p) && Counts(p.kinds) && JumpFree(p) && WithinBudget(p, budget, st) && Smooth(env)
    ensures var c := Turn(p, env, budget, st); c.Going? ==> WithinBudget(p, budget, c.st)
  {
    var c := Turn(p, env, budget, st);
    if c.Going? {
      SmoothTurn(p, env, budget, st);
      JumpFreeTurn(p, env, budget, st);
      GoingVisitsHead(p, env, budget, st);
      ExecCountAppend(p.kinds, st.trace, st.pc);
      assert c.st.trace[..|c.st.trace| - 1] == st.trace;
    }
  }

  /** Where a run on its way stops: at the end of the chain, or where the budget is used up. */
  lemma BudgetStop(p: Program, env: Env, budget: int, st: State)
    requires Wf(p) && Counts(p.kinds) && JumpFree(p) && p.kinds != [] && WithinBudget(p, budget, st) && Smooth(env)
    ensures Unrolled(p) != []
    ensures var c := Turn(p, env, budget, st);
            c.Done? ==> (c.code == EXIT_OK <==> ExecCount(p.kinds, Unrolled(p)[..|Unrolled(p)| - 1]) < budget)
  {
    var u := Unrolled(p);
    assert u[0] == 0;
    var c := Turn(p, env, budget, st);
    if c.Done? {
      SmoothTurn(p, env, budget, st);
      JumpFreeStaysInLoops(p);
      TurnKeepsStack(p, env, budget, st);
      if c.code == EXIT_OK {
        assert st.trace == u;
      } else {
        NextOnTrack(p, st);
        var k := |st.trace|;
        assert u[..|u| - 1][..k] == st.trace;
        ExecCountGrows(p.kinds, u[..|u| - 1], k);
      }
    }
  }

  lemma {:induction false} BudgetFrom(p: Program, env: Env, budget: int, st: State)
    requires Wf(p) && Counts(p.kinds) && JumpFree(p) && p.kinds != [] && WithinBudget(p, budget, st) && Smooth(env)
    ensures Unrolled(p) != []
    ensures RunFrom(p, env, budget, st).0 == EXIT_OK <==> ExecCount(p.kinds, Unrolled(p)[..|Unrolled(p)| - 1]) < budget
    decreases if env.Raised(st.checks) then 0 else 1, Left(budget, st.attempts),
              |Rest(p.kinds, p.pairEnd, st.pc, st.stack)|
  {
    TurnProgress(p, env, budget, st);
    BudgetStep(p, env, budget, st);
    BudgetStop(p, env, budget, st);
    var c := Turn(p, env, budget, st);
    if c.Going? {
      BudgetFrom(p, env, budget, c.st);
    }
  }

  /**
   * When every attempt succeeds, a chain without jumps completes exactly when the budget exceeds the number
   * of attempts before its last unrolled step: the budget is checked before every step, loop brackets too.
   */
  lemma BudgetExact(raw: seq<RawStep>, p: Program, env: Env, budget: int)
    requires Accepts(raw, p) && JumpFree(p) && Smooth(env)
    ensures Wf(p) && Counts(p.kinds) && Unrolled(p) != []
    ensures RunFrom(p, env, budget, START).0 == EXIT_OK <==>
            ExecCount(p.kinds, Unrolled(p)[..|Unrolled(p)| - 1]) < budget
  {
    AcceptedIsWf(raw, p);
    StartsOnTrack(p);
    BudgetFrom(p, env, budget, START);
  }

  // ---- exit codes ----

  /** The target an ordinary step goes to: its success target or its error target. */
  function Taken(p: Program, env: Env, st: State): int
    requires 0 <= st.pc < |p.kinds| && |p.next| == |p.onError| == |p.retries| == |p.kinds|
  {
    var here := st.(checks := st.checks + 1, trace := st.trace + [st.pc]);
    if Tries(env, here, p.retries[st.pc] + 1).0 then p.next[st.pc] else p.onError[st.pc]
  }

  /** Attempt `k` of a step succeeds, and no interrupt comes before it. */
  predicate SucceedsAt(env: Env, attempts: nat, checks: nat, k: nat) {
    env.succeeds(attempts + k) && !env.Raised(checks + k)
  }

  ghost predicate Succeeds(env: Env, attempts: nat, checks: nat, left: nat) {
    exists k: nat :: k < left && SucceedsAt(env, attempts, checks, k)
  }

  lemma {:induction false} TriesExact(env: Env, st: State, left: nat)
    ensures Tries(env, st, left).0 <==> Succeeds(env, st.attempts, st.checks, left)
    ensures Tries(env, st, left).1.pc == st.pc
    decreases left
  {
    if left == 0 {
    } else if env.Raised(st.checks) {
    } else if env.succeeds(st.attempts) {
      assert SucceedsAt(env, st.attempts, st.checks, 0);
    } else {
      TriesExact(env, st.(checks := st.checks + 1, attempts := st.attempts + 1), left - 1);
      var a, c := st.attempts + 1, st.checks + 1;
      assert forall k: nat :: SucceedsAt(env, a, c, k) ==> SucceedsAt(env, st.attempts, st.checks, k + 1);
      assert forall k: nat :: SucceedsAt(env, st.attempts, st.checks, k) ==> k > 0 && SucceedsAt(env, a, c, k - 1);
    }
  }

  /**
   * A step that goes to `fail` ends the run with the failure code exactly when no attempt succeeded. After a
   * success `fail` is just a number outside the chain, and the run exits 0.
   */
  lemma FailTargetExact(p: Program, env: Env, budget: int, st: State)
    requires Wf(p) && Counts(p.kinds) && 0 <= st.pc < |p.kinds| && p.kinds[st.pc].Exec?
    requires !env.Raised(st.checks) && st.attempts < budget && Taken(p, env, st) == FAIL
    ensures RunFrom(p, env, budget, st).0
              == if Succeeds(env, st.attempts, st.checks + 1, p.retries[st.pc] + 1) then EXIT_OK else EXIT_FAIL
  {
    var here := st.(checks := st.checks + 1, trace := st.trace + [st.pc]);
    TriesExact(env, here, p.retries[st.pc] + 1);
    var c := Turn(p, env, budget, st);
    if c.Going? {
      assert c.st.pc == FAIL;
      assert RunFrom(p, env, budget, c.st).0 == EXIT_OK;
    }
  }

  // ---- what each target word does ----

  /** The step is attempted: no interrupt is up and the budget is not used up. */
  predicate Attempted(p: Program, env: Env, budget: int, st: State) {
    && 0 <= st.pc < |p.kinds| && p.kinds[st.pc].Exec? && !env.Raised(st.checks) && st.attempts < budget
  }

  lemma AttemptedTurn(p: Program, env: Env, budget: int, st: State)
    requires Wf(p) && Attempted(p, env, budget, st)
    ensures var c := Turn(p, env, budget, st);
            && c.st.stack == st.stack && c.st.trace == st.trace + [st.pc]
            && (if Succeeds(env, st.attempts, st.checks + 1, p.retries[st.pc] + 1)
                then c.Going? && c.st.errors == st.errors
                     && c.st.pc == (if p.next[st.pc] == -1 then |p.kinds| else p.next[st.pc])
                else c.st.errors == st.errors + 1
                     && (if p.onError[st.pc] == -2 then c.Done? && c.code == 1
                         else c.Going? && c.st.pc == p.onError[st.pc]))
  {
    var here := st.(checks := st.checks + 1, trace := st.trace + [st.pc]);
    TriesExact(env, here, p.retries[st.pc] + 1);
    TriesBounds(env, here, p.retries[st.pc] + 1);
  }

  /**
   * After a failed step of an accepted chain `next` goes on to the step behind it, `prev` goes back to the one
   * before, a name goes to the step of that name, `stop` leaves the chain with exit code 0 and `fail` ends it with 1.
   */
  lemma AfterFailure(raw: seq<RawStep>, p: Program, env: Env, budget: int, st: State)
    requires Accepts(raw, p) && Attempted(p, env, budget, st)
    requires !Succeeds(env, st.attempts, st.checks + 1, raw[st.pc].retries + 1)
    ensures Wf(p) && Counts(p.kinds)
    ensures var c, word := Turn(p, env, budget, st), raw[st.pc].onError;
            && c.st.errors == st.errors + 1
            && (word == "next" ==> c.Going? && c.st.pc == st.pc + 1)
            && (word == "prev" ==> c.Going? && c.st.pc == st.pc - 1 >= 0)
            && (word == "stop" ==> RunFrom(p, env, budget, st).0 == 0)
            && (word == "fail" ==> RunFrom(p, env, budget, st).0 == 1)
            && (word !in {"next", "prev", "stop", "fail"} ==>
                  c.Going? && 0 <= c.st.pc < |raw| && raw[c.st.pc].name == word)
  {
    AcceptedIsWf(raw, p);
    assert CompiledAt(raw, p, st.pc);
    AttemptedTurn(p, env, budget, st);
    EndsOutside(p, env, budget, st);
  }

  /** After a step that succeeded the words mean the same, except that `fail` leaves with exit code 0 as well. */
  lemma AfterSuccess(raw: seq<RawStep>, p: Program, env: Env, budget: int, st: State)
    requires Accepts(raw, p) && Attempted(p, env, budget, st)
    requires Succeeds(env, st.attempts, st.checks + 1, raw[st.pc].retries + 1)
    ensures Wf(p) && Counts(p.kinds)
    ensures var c, word := Turn(p, env, budget, st), raw[st.pc].next;
            && c.Going? && c.st.errors == st.errors
            && (word == "next" ==> c.st.pc == st.pc + 1)
            && (word == "prev" ==> c.st.pc == st.pc - 1 >= 0)
            && (word == "stop" || word == "fail" ==> RunFrom(p, env, budget, st).0 == 0)
            && (word !in {"next", "prev", "stop", "fail"} ==> 0 <= c.st.pc < |raw| && raw[c.st.pc].name == word)
  {
    AcceptedIsWf(raw, p);
    assert CompiledAt(raw, p, st.pc);
    AttemptedTurn(p, env, budget, st);
    EndsOutside(p, env, budget, st);
  }

  /** A turn that leads out of the chain, or ends the run, decides the exit code. */
  lemma EndsOutside(p: Program, env: Env, budget: int, st: State)
    requires Wf(p) && Counts(p.kinds)
    ensures var c := Turn(p, env, budget, st);
            && (c.Done? ==> RunFrom(p, env, budget, st) == (c.code, c.st))
            && (c.Going? && !(0 <= c.st.pc < |p.kinds|) ==> RunFrom(p, env, budget, st) == (0, c.st))
  {
    var c := Turn(p, env, budget, st);
    if c.Going? && !(0 <= c.st.pc < |p.kinds|) {
      assert RunFrom(p, env, budget, c.st) == (0, c.st);
    }
  }

  /** A used-up budget ends the run with exit code 1, a loop end that does not match the open loop with 2. */
  lemma EndsEarly(p: Program, env: Env, budget: int, st: State)
    requires Wf(p) && Counts(p.kinds) && 0 <= st.pc < |p.kinds| && !env.Raised(st.checks)
    ensures st.attempts >= budget ==> RunFrom(p, env, budget, st) == (1, st)
    ensures st.attempts < budget && p.kinds[st.pc].LoopEnd?
            && (st.stack == [] || st.stack[|st.stack| - 1].id != p.kinds[st.pc].id) ==>
              RunFrom(p, env, budget, st) == (2, st.(checks := st.checks + 1, trace := st.trace + [st.pc]))
  {
    EndsOutside(p, env, budget, st);
  }

  // ---- attempts and interrupts ----

  /** A step that never succeeds is attempted exactly once more than it has retries, unless an interrupt comes. */
  lemma {:induction false} TriesCount(env: Env, st: State, left: nat)
    ensures var (ok, st') := Tries(env, st, left);
            && (!ok && left > 0 && !env.Raised(st.checks + left - 1) ==> st'.attempts == st.attempts + left)
            && (ok ==> st'.attempts > st.attempts && env.succeeds(st'.attempts - 1)
                       && forall k: nat :: st.attempts <= k < st'.attempts - 1 ==> !env.succeeds(k))
    decreases left
  {
    if left == 0 {
    } else if env.Raised(st.checks) {
    } else if env.succeeds(st.attempts) {
    } else {
      TriesCount(env, st.(checks := st.checks + 1, attempts := st.attempts + 1), left - 1);
    }
  }

  /** An interrupt that is up when a turn starts ends the run with 130 or 143, and nothing else gives these codes. */
  lemma {:induction false} InterruptExact(p: Program, env: Env, budget: int, st: State)
    requires Wf(p) && Counts(p.kinds)
    ensures var (code, fin) := RunFrom(p, env, budget, st);
            && (code == 130 || code == 143 <==> 0 <= fin.pc < |p.kinds| && code != 1 && code != 2)
            && (code == 130 ==> env.sigint && env.Raised(fin.checks))
            && (code == 143 ==> !env.sigint && env.Raised(fin.checks))
    ensures 0 <= st.pc < |p.kinds| && env.Raised(st.checks) ==>
              RunFrom(p, env, budget, st) == (if env.sigint then 130 else 143, st)
    decreases if env.Raised(st.checks) then 0 else 1, Left(budget, st.attempts),
              |Rest(p.kinds, p.pairEnd, st.pc, st.stack)|
  {
    TurnProgress(p, env, budget, st);
    DoneInChain(p, env, budget, st);
    var c := Turn(p, env, budget, st);
    if c.Going? { InterruptExact(p, env, budget, c.st); }
  }

  lemma DoneInChain(p: Program, env: Env, budget: int, st: State)
    requires Wf(p)
    ensures var c := Turn(p, env, budget, st); c.Done? ==> (c.code == EXIT_OK <==> !(0 <= c.st.pc < |p.kinds|))
  {
    if 0 <= st.pc < |p.kinds| && p.kinds[st.pc].Exec? {
      TriesExact(env, st.(checks := st.checks + 1, trace := st.trace + [st.pc]), p.retries[st.pc] + 1);
    }
  }

  /** Every run from any state exits 0 exactly when it ends with the program counter outside the chain. */
  lemma {:induction false} ExitZeroExact(p: Program, env: Env, budget: int, st: State)
    requires Wf(p) && Counts(p.kinds)
    ensures var (code, fin) := RunFrom(p, env, budget, st); code == EXIT_OK <==> !(0 <= fin.pc < |p.kinds|)
    decreases if env.Raised(st.checks) then 0 else 1, Left(budget, st.attempts),
              |Rest(p.kinds, p.pairEnd, st.pc, st.stack)|
  {
    TurnProgress(p, env, budget, st);
    DoneInChain(p, env, budget, st);
    var c := Turn(p, env, budget, st);
    if c.Going? {
      ExitZeroExact(p, env, budget, c.st);
    } else {
    }
  }
}
