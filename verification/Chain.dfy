/** The chain compiler: loop pairing, target resolution and the check on jumps into loops. */
module Chain {
  import opened Bytes

  const MAX_COUNT := 10000
  const MAX_RETRIES := 20
  const STOP := -1
  const FAIL := -2

  /** What the runner distinguishes of a step: a loop bracket, or anything that is attempted. */
  datatype Kind = Exec | LoopStart(id: string, count: int) | LoopEnd(id: string)

  datatype RawStep = RawStep(name: string, kind: Kind, next: string, onError: string, retries: int)

  datatype Program = Program(
    kinds: seq<Kind>, next: seq<int>, onError: seq<int>, retries: seq<nat>, pairEnd: map<nat, nat>)

  function Kinds(raw: seq<RawStep>): (kinds: seq<Kind>)
    ensures |kinds| == |raw|
    ensures forall i :: 0 <= i < |raw| ==> kinds[i] == raw[i].kind
  {
    seq(|raw|, i requires 0 <= i < |raw| => raw[i].kind)
  }

  // ---- loop pairing ----

  predicate IsStart(kinds: seq<Kind>, i: int) {
    0 <= i < |kinds| && kinds[i].LoopStart?
  }

  predicate IsEnd(kinds: seq<Kind>, i: int) {
    0 <= i < |kinds| && kinds[i].LoopEnd?
  }

  /** A loop from its start to its end with the same id. */
  predicate IsLoop(kinds: seq<Kind>, s: nat, e: nat) {
    IsStart(kinds, s) && IsEnd(kinds, e) && s < e && kinds[s].id == kinds[e].id
  }

  predicate Closed(pairs: map<nat, nat>, e: nat) {
    exists s :: s in pairs && pairs[s] == e
  }

  /** Every loop bracket belongs to exactly one loop, and loops nest. */
  ghost predicate Pairing(kinds: seq<Kind>, pairs: map<nat, nat>) {
    && (forall s :: s in pairs ==> IsLoop(kinds, s, pairs[s]))
    && (forall s: nat :: IsStart(kinds, s) ==> s in pairs)
    && (forall e: nat :: IsEnd(kinds, e) ==> Closed(pairs, e))
    && (forall s, t :: s in pairs && t in pairs && s < t ==> pairs[s] < t || pairs[t] < pairs[s])
  }

  /** A loop start that has not been closed yet. */
  datatype Open = Open(id: string, start: nat)

  /** The pairs found so far and the starts still open. */
  datatype Scanning = Scanning(found: map<nat, nat>, stack: seq<Open>)

  /** One step of the pairing scan. */
  function Advance(kinds: seq<Kind>, i: nat, p: Scanning): Option<Scanning>
    requires i < |kinds|
  {
    match kinds[i]
    case Exec => Some(p)
    case LoopStart(id, _) => Some(Scanning(p.found, p.stack + [Open(id, i)]))
    case LoopEnd(id) =>
      var n := |p.stack| - 1;
      if p.stack == [] || p.stack[n].id != id then None
      else Some(Scanning(p.found[p.stack[n].start := i], p.stack[..n]))
  }

  /** The pairing scan from step `i` on. */
  function Scan(kinds: seq<Kind>, i: nat, p: Scanning): Option<map<nat, nat>>
    requires i <= |kinds|
    decreases |kinds| - i
  {
    if i == |kinds| then (if p.stack == [] then Some(p.found) else None)
    else
      match Advance(kinds, i, p)
      case None => None
      case Some(p') => Scan(kinds, i + 1, p')
  }

  /** Pairs the loops, or finds that they cannot be paired. */
  method PairLoops(kinds: seq<Kind>) returns (found: Option<map<nat, nat>>)
    ensures found == Scan(kinds, 0, Scanning(map[], []))
  {
    var pairs: map<nat, nat>, stack: seq<Open> := map[], [];
    for i := 0 to |kinds|
      invariant Scan(kinds, 0, Scanning(map[], [])) == Scan(kinds, i, Scanning(pairs, stack))
    {
      match kinds[i]
      case LoopStart(id, _) => stack := stack + [Open(id, i)];
      case LoopEnd(id) =>
        if stack == [] || stack[|stack| - 1].id != id { return None; }
        pairs := pairs[stack[|stack| - 1].start := i];
        stack := stack[..|stack| - 1];
      case Exec =>
    }
    return if stack == [] then Some(pairs) else None;
  }

  predicate IsOpen(stack: seq<Open>, s: nat) {
    exists k :: 0 <= k < |stack| && stack[k].start == s
  }

  ghost predicate StackOk(kinds: seq<Kind>, stack: seq<Open>, i: nat) {
    && (forall k :: 0 <= k < |stack| ==>
        stack[k].start < i && IsStart(kinds, stack[k].start) && kinds[stack[k].start].id == stack[k].id)
    && (forall k, l :: 0 <= k < l < |stack| ==> stack[k].start < stack[l].start)
  }

  ghost predicate FoundOk(kinds: seq<Kind>, found: map<nat, nat>, i: nat) {
    && (forall s :: s in found ==> IsLoop(kinds, s, found[s]) && found[s] < i)
    && (forall s, t :: s in found && t in found && s < t ==> found[s] < t || found[t] < found[s])
  }

  /** Every bracket before `i` is accounted for, and no found loop straddles an open start. */
  ghost predicate Covered(kinds: seq<Kind>, found: map<nat, nat>, stack: seq<Open>, i: nat) {
    && (forall s: nat :: s < i && IsStart(kinds, s) ==> s in found || IsOpen(stack, s))
    && (forall e: nat :: e < i && IsEnd(kinds, e) ==> Closed(found, e))
    && (forall s, k :: s in found && 0 <= k < |stack| ==> stack[k].start < s || found[s] < stack[k].start)
  }

  ghost predicate Scanned(kinds: seq<Kind>, found: map<nat, nat>, stack: seq<Open>, i: nat) {
    i <= |kinds| && StackOk(kinds, stack, i) && FoundOk(kinds, found, i) && Covered(kinds, found, stack, i)
  }

  lemma PushKeepsCover(kinds: seq<Kind>, found: map<nat, nat>, stack: seq<Open>, i: nat)
    requires FoundOk(kinds, found, i) && Covered(kinds, found, stack, i) && IsStart(kinds, i)
    ensures Covered(kinds, found, stack + [Open(kinds[i].id, i)], i + 1)
  {
    var stack' := stack + [Open(kinds[i].id, i)];
    forall s: nat | s < i + 1 && IsStart(kinds, s) ensures s in found || IsOpen(stack', s) {
      if s == i {
        assert stack'[|stack|].start == s;
      } else if s !in found {
        var k :| 0 <= k < |stack| && stack[k].start == s;
        assert stack'[k].start == s;
      }
    }
  }

  lemma PushKeepsScan(kinds: seq<Kind>, found: map<nat, nat>, stack: seq<Open>, i: nat)
    requires Scanned(kinds, found, stack, i) && IsStart(kinds, i)
    ensures Scanned(kinds, found, stack + [Open(kinds[i].id, i)], i + 1)
  {
    PushKeepsCover(kinds, found, stack, i);
  }

  lemma PopKeepsFound(kinds: seq<Kind>, found: map<nat, nat>, stack: seq<Open>, i: nat)
    requires Scanned(kinds, found, stack, i) && IsEnd(kinds, i)
    requires stack != [] && stack[|stack| - 1].id == kinds[i].id
    ensures FoundOk(kinds, found[stack[|stack| - 1].start := i], i + 1)
  {
    var top := stack[|stack| - 1].start;
    assert IsLoop(kinds, top, i);
    assert forall s :: s in found ==> top < s || found[s] < top;
  }

  lemma PopKeepsStarts(kinds: seq<Kind>, found: map<nat, nat>, stack: seq<Open>, i: nat, s: nat)
    requires Covered(kinds, found, stack, i) && IsEnd(kinds, i) && stack != [] && s < i + 1 && IsStart(kinds, s)
    ensures s in found[stack[|stack| - 1].start := i] || IsOpen(stack[..|stack| - 1], s)
  {
    if s !in found && s != stack[|stack| - 1].start {
      var k :| 0 <= k < |stack| && stack[k].start == s;
      assert stack[..|stack| - 1][k].start == s;
    }
  }

  lemma PopKeepsEnds(found: map<nat, nat>, top: nat, i: nat, e: nat)
    requires top !in found && (e == i || Closed(found, e))
    ensures Closed(found[top := i], e)
  {
    if e == i {
      assert found[top := i][top] == e;
    } else {
      var s :| s in found && found[s] == e;
      assert found[top := i][s] == e;
    }
  }

  lemma PopKeepsCover(kinds: seq<Kind>, found: map<nat, nat>, stack: seq<Open>, i: nat)
    requires StackOk(kinds, stack, i) && Covered(kinds, found, stack, i) && FoundOk(kinds, found, i)
    requires IsEnd(kinds, i) && stack != []
    ensures Covered(kinds, found[stack[|stack| - 1].start := i], stack[..|stack| - 1], i + 1)
  {
    var n := |stack| - 1;
    var top := stack[n].start;
    assert top !in found;
    forall s: nat | s < i + 1 && IsStart(kinds, s) ensures s in found[top := i] || IsOpen(stack[..n], s) {
      PopKeepsStarts(kinds, found, stack, i, s);
    }
    forall e: nat | e < i + 1 && IsEnd(kinds, e) ensures Closed(found[top := i], e) {
      PopKeepsEnds(found, top, i, e);
    }
  }

  lemma PopKeepsScan(kinds: seq<Kind>, found: map<nat, nat>, stack: seq<Open>, i: nat)
    requires Scanned(kinds, found, stack, i) && IsEnd(kinds, i)
    requires stack != [] && stack[|stack| - 1].id == kinds[i].id
    ensures Scanned(kinds, found[stack[|stack| - 1].start := i], stack[..|stack| - 1], i + 1)
  {
    PopKeepsFound(kinds, found, stack, i);
    PopKeepsCover(kinds, found, stack, i);
  }

  lemma ExecKeepsScan(kinds: seq<Kind>, found: map<nat, nat>, stack: seq<Open>, i: nat)
    requires Scanned(kinds, found, stack, i) && i < |kinds| && kinds[i].Exec?
    ensures Scanned(kinds, found, stack, i + 1)
  {
  }

  lemma ScanEnds(kinds: seq<Kind>, found: map<nat, nat>)
    requires Scanned(kinds, found, [], |kinds|)
    ensures Pairing(kinds, found)
  {
    forall s: nat | IsStart(kinds, s) ensures s in found {
      assert !IsOpen([], s);
    }
  }

  lemma AdvanceKeepsScan(kinds: seq<Kind>, i: nat, p: Scanning)
    requires i < |kinds| && Scanned(kinds, p.found, p.stack, i)
    ensures var r := Advance(kinds, i, p); r.Some? ==> Scanned(kinds, r.value.found, r.value.stack, i + 1)
  {
    match kinds[i]
    case Exec => ExecKeepsScan(kinds, p.found, p.stack, i);
    case LoopStart(_, _) => PushKeepsScan(kinds, p.found, p.stack, i);
    case LoopEnd(id) =>
      if p.stack != [] && p.stack[|p.stack| - 1].id == id { PopKeepsScan(kinds, p.found, p.stack, i); }
  }

  /** What the scan accepts is a pairing. */
  lemma {:induction false} ScanSound(kinds: seq<Kind>, i: nat, p: Scanning)
    requires i <= |kinds| && Scanned(kinds, p.found, p.stack, i)
    ensures var r := Scan(kinds, i, p); r.Some? ==> Pairing(kinds, r.value)
    decreases |kinds| - i
  {
    if i == |kinds| {
      if p.stack == [] { ScanEnds(kinds, p.found); }
    } else {
      AdvanceKeepsScan(kinds, i, p);
      var r := Advance(kinds, i, p);
      if r.Some? { ScanSound(kinds, i + 1, r.value); }
    }
  }

  /** The loops on the stack end at `i` or later. */
  ghost predicate StillOpen(kinds: seq<Kind>, pairs: map<nat, nat>, stack: seq<Open>, i: nat) {
    forall k :: 0 <= k < |stack| ==> stack[k].start in pairs && i <= pairs[stack[k].start] < |kinds|
  }

  ghost predicate FoundIn(found: map<nat, nat>, pairs: map<nat, nat>) {
    forall s :: s in found ==> s in pairs && pairs[s] == found[s]
  }

  /** The state of the scan agrees with a given pairing: what is found is right, what is open ends later. */
  ghost predicate Agrees(kinds: seq<Kind>, pairs: map<nat, nat>, found: map<nat, nat>, stack: seq<Open>, i: nat) {
    FoundIn(found, pairs) && StillOpen(kinds, pairs, stack, i)
  }

  /** Of two loops the later one ends before the earlier, or starts after it. */
  lemma Nested(kinds: seq<Kind>, pairs: map<nat, nat>, s: nat, t: nat)
    requires Pairing(kinds, pairs) && s in pairs && t in pairs && s < t
    ensures IsLoop(kinds, s, pairs[s]) && IsLoop(kinds, t, pairs[t])
    ensures pairs[s] < t || pairs[t] < pairs[s]
  {
  }

  /** The start that the end at `i` closes is still open. */
  lemma ClosedStart(kinds: seq<Kind>, pairs: map<nat, nat>, i: nat) returns (s: nat)
    requires Pairing(kinds, pairs) && IsEnd(kinds, i)
    ensures s in pairs && pairs[s] == i && IsLoop(kinds, s, i)
  {
    assert Closed(pairs, i);
    s :| s in pairs && pairs[s] == i;
  }

  lemma OpenStart(kinds: seq<Kind>, found: map<nat, nat>, stack: seq<Open>, i: nat, s: nat) returns (k: nat)
    requires FoundOk(kinds, found, i) && Covered(kinds, found, stack, i)
    requires s < i && IsStart(kinds, s) && (s in found ==> found[s] >= i)
    ensures k < |stack| && stack[k].start == s
  {
    assert IsOpen(stack, s);
    k :| 0 <= k < |stack| && stack[k].start == s;
  }

  /** In every pairing the end at `i` closes the innermost open start. */
  lemma EndClosesTop(kinds: seq<Kind>, pairs: map<nat, nat>, found: map<nat, nat>, stack: seq<Open>, i: nat)
    requires Pairing(kinds, pairs) && Scanned(kinds, found, stack, i) && Agrees(kinds, pairs, found, stack, i)
    requires IsEnd(kinds, i)
    ensures stack != [] && pairs[stack[|stack| - 1].start] == i && kinds[i].id == stack[|stack| - 1].id
  {
    var s := ClosedStart(kinds, pairs, i);
    var k := OpenStart(kinds, found, stack, i, s);
    var top := stack[|stack| - 1].start;
    if s < top { Nested(kinds, pairs, s, top); }
  }

  lemma ExecKeepsOpen(kinds: seq<Kind>, pairs: map<nat, nat>, stack: seq<Open>, i: nat)
    requires Pairing(kinds, pairs) && StillOpen(kinds, pairs, stack, i) && !IsEnd(kinds, i)
    ensures StillOpen(kinds, pairs, stack, i + 1)
  {
    forall k | 0 <= k < |stack| ensures pairs[stack[k].start] != i {
      assert IsLoop(kinds, stack[k].start, pairs[stack[k].start]);
    }
  }

  lemma PushKeepsOpen(kinds: seq<Kind>, pairs: map<nat, nat>, stack: seq<Open>, i: nat)
    requires Pairing(kinds, pairs) && StillOpen(kinds, pairs, stack, i) && IsStart(kinds, i)
    ensures StillOpen(kinds, pairs, stack + [Open(kinds[i].id, i)], i + 1)
  {
    ExecKeepsOpen(kinds, pairs, stack, i);
    assert IsLoop(kinds, i, pairs[i]);
  }

  lemma PopKeepsOpen(kinds: seq<Kind>, pairs: map<nat, nat>, stack: seq<Open>, i: nat)
    requires Pairing(kinds, pairs) && StackOk(kinds, stack, i) && StillOpen(kinds, pairs, stack, i)
    requires stack != [] && pairs[stack[|stack| - 1].start] == i
    ensures StillOpen(kinds, pairs, stack[..|stack| - 1], i + 1)
  {
    var top := stack[|stack| - 1].start;
    forall k | 0 <= k < |stack| - 1 ensures pairs[stack[k].start] != i {
      Nested(kinds, pairs, stack[k].start, top);
    }
  }

  lemma EndKeepsAgreement(kinds: seq<Kind>, i: nat, p: Scanning, pairs: map<nat, nat>)
    requires Pairing(kinds, pairs) && IsEnd(kinds, i)
    requires Scanned(kinds, p.found, p.stack, i) && Agrees(kinds, pairs, p.found, p.stack, i)
    ensures p.stack != [] && p.stack[|p.stack| - 1].id == kinds[i].id
    ensures Agrees(kinds, pairs, p.found[p.stack[|p.stack| - 1].start := i], p.stack[..|p.stack| - 1], i + 1)
  {
    EndClosesTop(kinds, pairs, p.found, p.stack, i);
    PopKeepsOpen(kinds, pairs, p.stack, i);
  }

  lemma AdvanceKeepsAgreement(kinds: seq<Kind>, i: nat, p: Scanning, pairs: map<nat, nat>)
    requires Pairing(kinds, pairs) && i < |kinds|
    requires Scanned(kinds, p.found, p.stack, i) && Agrees(kinds, pairs, p.found, p.stack, i)
    ensures var r := Advance(kinds, i, p); r.Some? && Agrees(kinds, pairs, r.value.found, r.value.stack, i + 1)
  {
    match kinds[i]
    case Exec => ExecKeepsOpen(kinds, pairs, p.stack, i);
    case LoopStart(_, _) => PushKeepsOpen(kinds, pairs, p.stack, i);
    case LoopEnd(_) => EndKeepsAgreement(kinds, i, p, pairs);
  }

  lemma OpenInChain(kinds: seq<Kind>, pairs: map<nat, nat>, stack: seq<Open>, i: nat)
    requires StillOpen(kinds, pairs, stack, i)
    ensures stack != [] ==> i < |kinds|
  {
    if stack != [] {
      var first := stack[0];
    }
  }

  lemma AllFoundAtEnd(kinds: seq<Kind>, pairs: map<nat, nat>, found: map<nat, nat>)
    requires Pairing(kinds, pairs) && Covered(kinds, found, [], |kinds|) && FoundIn(found, pairs)
    ensures found == pairs
  {
    forall s | s in pairs ensures s in found {
      assert IsLoop(kinds, s, pairs[s]) && !IsOpen([], s);
    }
  }

  /** The scan finds every pairing there is. */
  lemma {:induction false} ScanComplete(kinds: seq<Kind>, i: nat, p: Scanning, pairs: map<nat, nat>)
    requires Pairing(kinds, pairs) && i <= |kinds| && Scanned(kinds, p.found, p.stack, i)
             && Agrees(kinds, pairs, p.found, p.stack, i)
    ensures Scan(kinds, i, p) == Some(pairs)
    decreases |kinds| - i
  {
    if i == |kinds| {
      OpenInChain(kinds, pairs, p.stack, i);
      AllFoundAtEnd(kinds, pairs, p.found);
    } else {
      AdvanceKeepsScan(kinds, i, p);
      AdvanceKeepsAgreement(kinds, i, p, pairs);
      ScanComplete(kinds, i + 1, Advance(kinds, i, p).value, pairs);
    }
  }

  /** A chain is paired exactly when its loops can be paired at all, and then in the only possible way. */
  lemma PairingExact(kinds: seq<Kind>, pairs: map<nat, nat>)
    ensures Pairing(kinds, pairs) <==> Scan(kinds, 0, Scanning(map[], [])) == Some(pairs)
  {
    ScanSound(kinds, 0, Scanning(map[], []));
    if Pairing(kinds, pairs) { ScanComplete(kinds, 0, Scanning(map[], []), pairs); }
  }

  // ---- targets ----

  /** The first step from `i` on with the given name, or the chain length. */
  function FindName(raw: seq<RawStep>, name: string, i: nat): (k: nat)
    requires i <= |raw|
    ensures i <= k <= |raw|
    ensures k < |raw| ==> raw[k].name == name
    ensures forall j :: i <= j < k ==> raw[j].name != name
    decreases |raw| - i
  {
    if i == |raw| || raw[i].name == name then i else FindName(raw, name, i + 1)
  }

  /** A target word at step `src`: a neighbour, the end of the chain, failure, or a step by name. */
  function Resolve(raw: seq<RawStep>, src: nat, tgt: string): Option<int> {
    if tgt == "next" then Some(src + 1)
    else if tgt == "prev" then (if src == 0 then None else Some(src - 1))
    else if tgt == "stop" then Some(STOP)
    else if tgt == "fail" then Some(FAIL)
    else
      var k := FindName(raw, tgt, 0);
      if k < |raw| then Some(k) else None
  }

  /** What a target word at step `i` means: a neighbour, one of the two ways out, or the step of that name. */
  predicate Means(raw: seq<RawStep>, i: nat, word: string, target: int) {
    if word == "next" then target == i + 1
    else if word == "prev" then i > 0 && target == i - 1
    else if word == "stop" then target == -1
    else if word == "fail" then target == -2
    else 0 <= target < |raw| && raw[target].name == word
  }

  /** With distinct names the resolver finds the one meaning of a word, or that it has none. */
  lemma ResolveExact(raw: seq<RawStep>, i: nat, word: string, target: int)
    requires forall k, l :: 0 <= k < l < |raw| ==> raw[k].name != raw[l].name
    ensures Resolve(raw, i, word) == Some(target) <==> Means(raw, i, word, target)
  {
    var k := FindName(raw, word, 0);
    if 0 <= target < |raw| && raw[target].name == word {
      assert k <= target && raw[k].name == word;
    }
  }

  function LoopId(kinds: seq<Kind>, s: nat): string {
    if IsStart(kinds, s) then kinds[s].id else ""
  }

  /** The ids of the loops whose body, end included, holds step `i`. */
  function Enclosing(kinds: seq<Kind>, pairs: map<nat, nat>, i: int): set<string>
  {
    set s | s in pairs && s < i <= pairs[s] :: LoopId(kinds, s)
  }

  /** The same, counting a loop start as part of its own loop. */
  function EnclosingSelf(kinds: seq<Kind>, pairs: map<nat, nat>, i: int): set<string>
  {
    set s | s in pairs && s <= i <= pairs[s] :: LoopId(kinds, s)
  }

  /** No jump into a loop from outside it; targets outside the chain are always allowed. */
  predicate JumpOk(kinds: seq<Kind>, pairs: map<nat, nat>, src: nat, tgt: int) {
    0 <= tgt < |kinds| ==> Enclosing(kinds, pairs, tgt) <= EnclosingSelf(kinds, pairs, src)
  }

  predicate StepOk(r: RawStep) {
    && r.name != "" && r.next != "" && r.onError != "" && 0 <= r.retries <= 20
    && (r.kind.LoopStart? ==> 0 <= r.kind.count <= 10000)
  }

  predicate TargetsAt(raw: seq<RawStep>, kinds: seq<Kind>, pairs: map<nat, nat>, i: nat, nxt: int, err: int)
    requires i < |raw|
  {
    && Means(raw, i, raw[i].next, nxt) && JumpOk(kinds, pairs, i, nxt)
    && Means(raw, i, raw[i].onError, err) && JumpOk(kinds, pairs, i, err)
  }

  predicate CompiledAt(raw: seq<RawStep>, p: Program, i: nat)
    requires i < |raw| && |p.next| == |p.onError| == |p.retries| == |raw|
  {
    TargetsAt(raw, p.kinds, p.pairEnd, i, p.next[i], p.onError[i]) && p.retries[i] == raw[i].retries
  }

  /** The chain is accepted, and `p` is what it compiles to. */
  ghost predicate Accepts(raw: seq<RawStep>, p: Program) {
    && raw != []
    && (forall i :: 0 <= i < |raw| ==> StepOk(raw[i]))
    && (forall i, j :: 0 <= i < j < |raw| ==> raw[i].name != raw[j].name)
    && p.kinds == Kinds(raw) && |p.next| == |p.onError| == |p.retries| == |raw|
    && Pairing(p.kinds, p.pairEnd)
    && (forall i :: 0 <= i < |raw| ==> CompiledAt(raw, p, i))
  }

  /** A chain of one plain step: what its names, targets and retries may be. */
  lemma OneStepChain(r: RawStep)
    requires r.kind.Exec?
    ensures (exists p :: Accepts([r], p)) <==>
              r.name != "" && 0 <= r.retries <= 20 && OnItsOwn(r, r.next) && OnItsOwn(r, r.onError)
  {
    forall p | Accepts([r], p)
      ensures r.name != "" && 0 <= r.retries <= 20 && OnItsOwn(r, r.next) && OnItsOwn(r, r.onError)
    {
      assert StepOk([r][0]);
      assert CompiledAt([r], p, 0);
      assert Means([r], 0, r.next, p.next[0]) && Means([r], 0, r.onError, p.onError[0]);
    }
    if r.name != "" && 0 <= r.retries <= 20 && OnItsOwn(r, r.next) && OnItsOwn(r, r.onError) {
      var p := Program([r.kind], [Alone(r.next)], [Alone(r.onError)], [r.retries], map[]);
      assert Kinds([r]) == p.kinds;
      assert CompiledAt([r], p, 0);
      assert Accepts([r], p);
    }
  }

  /** A word that means something in a chain of one step, and the target it means there. */
  predicate OnItsOwn(r: RawStep, word: string) {
    word in {"next", "stop", "fail", r.name} && word != "" && word != "prev"
  }

  function Alone(word: string): int {
    if word == "next" then 1 else if word == "stop" then -1 else if word == "fail" then -2 else 0
  }

  /** A bare loop that runs through: it may go round up to 10000 times, and not at all. */
  lemma BareLoop(a: RawStep, b: RawStep, id: string, count: int)
    requires a.kind == LoopStart(id, count) && b.kind == LoopEnd(id)
    requires a.name != "" && b.name != "" && a.name != b.name && a.retries == b.retries == 0
    requires a.next == b.next == "next" && a.onError == b.onError == "fail"
    ensures (exists p :: Accepts([a, b], p)) <==> 0 <= count <= 10000
  {
    var raw := [a, b];
    if 0 <= count <= 10000 {
      var p := Program([a.kind, b.kind], [1, 2], [-2, -2], [0, 0], map[0 := 1]);
      assert Kinds(raw) == p.kinds;
      assert Enclosing(p.kinds, p.pairEnd, 1) <= EnclosingSelf(p.kinds, p.pairEnd, 0);
      assert CompiledAt(raw, p, 0) && CompiledAt(raw, p, 1);
      assert Accepts(raw, p);
    } else {
      assert !StepOk(raw[0]);
    }
  }

  method NamesDistinct(raw: seq<RawStep>) returns (ok: bool)
    ensures ok <==> forall i, j :: 0 <= i < j < |raw| ==> raw[i].name != raw[j].name
  {
    var seen: set<string> := {};
    for i := 0 to |raw|
      invariant forall k :: 0 <= k < i ==> raw[k].name in seen
      invariant forall n :: n in seen ==> exists k :: 0 <= k < i && raw[k].name == n
      invariant forall k, l :: 0 <= k < l < i ==> raw[k].name != raw[l].name
    {
      if raw[i].name in seen { return false; }
      seen := seen + {raw[i].name};
    }
    ok := true;
  }

  method StepsOk(raw: seq<RawStep>) returns (ok: bool)
    ensures ok <==> forall i :: 0 <= i < |raw| ==> StepOk(raw[i])
  {
    for i := 0 to |raw|
      invariant forall k :: 0 <= k < i ==> StepOk(raw[k])
    {
      if raw[i].name == "" || raw[i].next == "" || raw[i].onError == "" { return false; }
      if raw[i].kind.LoopStart? && !(0 <= raw[i].kind.count <= MAX_COUNT) { return false; }
      if !(0 <= raw[i].retries <= MAX_RETRIES) { return false; }
    }
    ok := true;
  }

  /** Validation and compilation: a program exactly when the chain is accepted, and then the only one. */
  method ValidateAndCompile(raw: seq<RawStep>) returns (r: Option<Program>)
    ensures r.Some? ==> Accepts(raw, r.value)
    ensures r.None? ==> forall p :: !Accepts(raw, p)
  {
    if raw == [] { return None; }
    var ok := StepsOk(raw);
    if !ok { return None; }
    ok := NamesDistinct(raw);
    if !ok { return None; }
    var kinds := Kinds(raw);
    var pairs := PairLoops(kinds);
    forall p | Accepts(raw, p) ensures pairs == Some(p.pairEnd) { PairingExact(kinds, p.pairEnd); }
    if pairs.None? { return None; }
    PairingExact(kinds, pairs.value);
    r := CompileTargets(raw, kinds, pairs.value);
  }

  lemma AcceptedAt(raw: seq<RawStep>, p: Program, i: nat)
    requires Accepts(raw, p) && i < |raw|
    ensures TargetsAt(raw, p.kinds, p.pairEnd, i, p.next[i], p.onError[i])
  {
    assert CompiledAt(raw, p, i);
  }

  /** A step that has no targets rules out every program. */
  lemma NothingAccepted(raw: seq<RawStep>, pairs: map<nat, nat>, i: nat)
    requires i < |raw| && (forall p :: Accepts(raw, p) ==> p.pairEnd == pairs)
    requires forall nxt, err :: !TargetsAt(raw, Kinds(raw), pairs, i, nxt, err)
    ensures forall p :: !Accepts(raw, p)
  {
    forall p ensures !Accepts(raw, p) {
      if Accepts(raw, p) { AcceptedAt(raw, p, i); }
    }
  }

  /** The two targets of a step, if both words have a meaning and neither jump enters a loop. */
  method CompileStep(raw: seq<RawStep>, kinds: seq<Kind>, pairs: map<nat, nat>, i: nat)
    returns (ok: bool, nxt: int, err: int)
    requires i < |raw| && forall k, l :: 0 <= k < l < |raw| ==> raw[k].name != raw[l].name
    ensures ok ==> TargetsAt(raw, kinds, pairs, i, nxt, err)
    ensures !ok ==> forall n, e :: !TargetsAt(raw, kinds, pairs, i, n, e)
  {
    var n, e := Resolve(raw, i, raw[i].next), Resolve(raw, i, raw[i].onError);
    forall t ensures Resolve(raw, i, raw[i].next) == Some(t) <==> Means(raw, i, raw[i].next, t) {
      ResolveExact(raw, i, raw[i].next, t);
    }
    forall t ensures Resolve(raw, i, raw[i].onError) == Some(t) <==> Means(raw, i, raw[i].onError, t) {
      ResolveExact(raw, i, raw[i].onError, t);
    }
    if n.None? || e.None? { return false, 0, 0; }
    ok := JumpOk(kinds, pairs, i, n.value) && JumpOk(kinds, pairs, i, e.value);
    nxt, err := n.value, e.value;
  }

  method CompileTargets(raw: seq<RawStep>, kinds: seq<Kind>, pairs: map<nat, nat>) returns (r: Option<Program>)
    requires raw != [] && kinds == Kinds(raw) && Pairing(kinds, pairs)
    requires forall i :: 0 <= i < |raw| ==> StepOk(raw[i])
    requires forall i, j :: 0 <= i < j < |raw| ==> raw[i].name != raw[j].name
    requires forall p :: Accepts(raw, p) ==> p.pairEnd == pairs
    ensures r.Some? ==> Accepts(raw, r.value)
    ensures r.None? ==> forall p :: !Accepts(raw, p)
  {
    var nexts: seq<int>, errs: seq<int>, retries: seq<nat> := [], [], [];
    for i := 0 to |raw|
      invariant |nexts| == |errs| == |retries| == i
      invariant forall k :: 0 <= k < i ==>
                TargetsAt(raw, kinds, pairs, k, nexts[k], errs[k]) && retries[k] == raw[k].retries
    {
      var ok, nxt, err := CompileStep(raw, kinds, pairs, i);
      if !ok {
        NothingAccepted(raw, pairs, i);
        return None;
      }
      nexts, errs, retries := nexts + [nxt], errs + [err], retries + [raw[i].retries];
    }
    var p := Program(kinds, nexts, errs, retries, pairs);
    forall i | 0 <= i < |raw| ensures CompiledAt(raw, p, i) {
      assert TargetsAt(raw, kinds, pairs, i, nexts[i], errs[i]);
    }
    r := Some(p);
  }
}
