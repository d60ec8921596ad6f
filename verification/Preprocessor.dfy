/**
 * The conditional-directive evaluator of the configuration checker: a flat scan with a stack of branch
 * states, and the structured meaning of nested conditionals it stands for. The truth of an expression is an
 * arbitrary function of its text and the macros defined so far.
 */
module Preprocessor {
  type Defines = map<string, int>
  type Truth = (string, Defines) -> bool

  /** One input line, as the scan recognises it. */
  datatype Line =
    | IfDef(macro: string) | IfNotDef(macro: string) | If(cond: string)
    | Elif(cond: string) | Else | Endif
    | Define(name: string, value: int) | Plain(text: string)

  /** Whether an arm is being read, and whether an arm of its group was taken. */
  datatype Branch = Branch(active: bool, taken: bool)

  /** The scan: open branches, macros, and the lines that were read as active. */
  datatype Scan = Scan(stack: seq<Branch>, defines: Defines, seen: seq<Line>)

  predicate IsOn(defines: Defines, macro: string) {
    macro in defines && defines[macro] != 0
  }

  predicate AllActive(stack: seq<Branch>) {
    forall k :: 0 <= k < |stack| ==> stack[k].active
  }

  function Enter(s: Scan, test: bool): Scan {
    var active := AllActive(s.stack) && test;
    s.(stack := s.stack + [Branch(active, active)])
  }

  /** The branch below the top one decides whether an `#elif` or `#else` may become active. */
  predicate ParentActive(stack: seq<Branch>) {
    |stack| >= 2 ==> stack[|stack| - 2].active
  }

  function SetTop(s: Scan, b: Branch): Scan
    requires s.stack != []
  {
    s.(stack := s.stack[..|s.stack| - 1] + [b])
  }

  function Step(truth: Truth, s: Scan, line: Line): (s': Scan)
    requires s.stack != []
    ensures s'.stack != []
  {
    var n := |s.stack| - 1;
    match line
    case IfDef(macro) => Enter(s, IsOn(s.defines, macro))
    case IfNotDef(macro) => Enter(s, !IsOn(s.defines, macro))
    case If(cond) => Enter(s, truth(cond, s.defines))
    case Elif(cond) =>
      if s.stack[n].taken then SetTop(s, Branch(false, true))
      else
        var active := ParentActive(s.stack) && truth(cond, s.defines);
        SetTop(s, Branch(active, active))
    case Else => SetTop(s, Branch(ParentActive(s.stack) && !s.stack[n].taken, s.stack[n].taken))
    case Endif => if |s.stack| > 1 then s.(stack := s.stack[..n]) else s
    case Define(name, value) =>
      if AllActive(s.stack) then s.(defines := s.defines[name := value], seen := s.seen + [line]) else s
    case Plain(_) => if AllActive(s.stack) then s.(seen := s.seen + [line]) else s
  }

  function ScanAll(truth: Truth, s: Scan, lines: seq<Line>): (s': Scan)
    requires s.stack != []
    ensures s'.stack != []
    decreases |lines|
  {
    if lines == [] then s else ScanAll(truth, Step(truth, s, lines[0]), lines[1..])
  }

  function Opened(seed: Defines): Scan {
    Scan([Branch(true, false)], seed, [])
  }

  /** The scan over all lines, updating the branch stack and the macro map. */
  method Preprocess(truth: Truth, seed: Defines, lines: seq<Line>) returns (defines: Defines, seen: seq<Line>)
    ensures defines == ScanAll(truth, Opened(seed), lines).defines
    ensures seen == ScanAll(truth, Opened(seed), lines).seen
  {
    defines := seed;
    seen := [];
    var stack := [Branch(true, false)];
    for i := 0 to |lines|
      invariant stack != []
      invariant ScanAll(truth, Opened(seed), lines) == ScanAll(truth, Scan(stack, defines, seen), lines[i..])
    {
      var n := |stack| - 1;
      ghost var before := Scan(stack, defines, seen);
      match lines[i] {
        case IfDef(macro) =>
          var active := AllActive(stack) && macro in defines && defines[macro] != 0;
          stack := stack + [Branch(active, active)];
        case IfNotDef(macro) =>
          var active := AllActive(stack) && (macro !in defines || defines[macro] == 0);
          stack := stack + [Branch(active, active)];
        case If(cond) =>
          var active := AllActive(stack) && truth(cond, defines);
          stack := stack + [Branch(active, active)];
        case Elif(cond) =>
          var parent := ParentActive(stack);
          if stack[n].taken {
            stack := stack[..n] + [Branch(false, true)];
          } else {
            var active := parent && truth(cond, defines);
            stack := stack[..n] + [Branch(active, active)];
          }
        case Else =>
          var parent, taken := ParentActive(stack), stack[n].taken;
          stack := stack[..n] + [Branch(parent && !taken, taken)];
        case Endif =>
          if |stack| > 1 { stack := stack[..n]; }
        case Define(name, value) =>
          if AllActive(stack) {
            defines := defines[name := value];
            seen := seen + [lines[i]];
          }
        case Plain(_) =>
          if AllActive(stack) { seen := seen + [lines[i]]; }
      }
      assert Scan(stack, defines, seen) == Step(truth, before, lines[i]);
      assert lines[i..][1..] == lines[i + 1..];
    }
  }

  // ---- structured conditionals ----

  datatype Test = Defined(macro: string) | NotDefined(macro: string) | Expr(cond: string)

  /** Nested text: definitions, other lines and groups of arms. */
  datatype Block =
    | Empty
    | Def(name: string, value: int, rest: Block)
    | Text(text: string, rest: Block)
    | Group(test: Test, body: Block, arms: Arms, rest: Block)

  /** What follows the first arm of a group, in any order. */
  datatype Arms = NoMore | ElseArm(body: Block, rest: Arms) | ElifArm(cond: string, body: Block, rest: Arms)

  /** An `#else` comes last in its group. */
  predicate ElseLast(arms: Arms) {
    match arms
    case NoMore => true
    case ElseArm(body, rest) => WellNested(body) && rest.NoMore?
    case ElifArm(_, body, rest) => WellNested(body) && ElseLast(rest)
  }

  predicate WellNested(b: Block) {
    match b
    case Empty => true
    case Def(_, _, rest) => WellNested(rest)
    case Text(_, rest) => WellNested(rest)
    case Group(_, body, arms, rest) => WellNested(body) && ElseLast(arms) && WellNested(rest)
  }

  function TestLine(t: Test): Line {
    match t
    case Defined(m) => IfDef(m)
    case NotDefined(m) => IfNotDef(m)
    case Expr(c) => If(c)
  }

  /** The block as a sequence of lines. */
  function Flatten(b: Block): seq<Line> {
    match b
    case Empty => []
    case Def(name, value, rest) => [Define(name, value)] + Flatten(rest)
    case Text(text, rest) => [Plain(text)] + Flatten(rest)
    case Group(test, body, arms, rest) => [TestLine(test)] + (Flatten(body) + (FlattenArms(arms) + Flatten(rest)))
  }

  function FlattenArms(arms: Arms): seq<Line> {
    match arms
    case NoMore => [Endif]
    case ElseArm(body, rest) => [Else] + (Flatten(body) + FlattenArms(rest))
    case ElifArm(cond, body, rest) => [Elif(cond)] + (Flatten(body) + FlattenArms(rest))
  }

  predicate Holds(truth: Truth, test: Test, defines: Defines) {
    match test
    case Defined(m) => m in defines && defines[m] != 0
    case NotDefined(m) => m !in defines || defines[m] == 0
    case Expr(c) => truth(c, defines)
  }

  /** The macros and the lines that count, before or after a block. */
  datatype Reading = Reading(defines: Defines, seen: seq<Line>)

  /** The meaning of a block: of each group the first arm that holds is read, an `#else` always holding. */
  function Meaning(truth: Truth, b: Block, r: Reading): Reading {
    match b
    case Empty => r
    case Def(name, value, rest) =>
      Meaning(truth, rest, Reading(r.defines[name := value], r.seen + [Define(name, value)]))
    case Text(text, rest) => Meaning(truth, rest, r.(seen := r.seen + [Plain(text)]))
    case Group(test, body, arms, rest) =>
      var r' := if Holds(truth, test, r.defines) then Meaning(truth, body, r) else ArmsMeaning(truth, arms, r);
      Meaning(truth, rest, r')
  }

  function ArmsMeaning(truth: Truth, arms: Arms, r: Reading): Reading {
    match arms
    case NoMore => r
    case ElseArm(body, _) => Meaning(truth, body, r)
    case ElifArm(cond, body, rest) =>
      if truth(cond, r.defines) then Meaning(truth, body, r) else ArmsMeaning(truth, rest, r)
  }

  /** What the scan makes of a block: an `#else` is read when nothing was taken, and the arms behind it still count. */
  function Effect(truth: Truth, b: Block, r: Reading): Reading {
    match b
    case Empty => r
    case Def(name, value, rest) =>
      Effect(truth, rest, Reading(r.defines[name := value], r.seen + [Define(name, value)]))
    case Text(text, rest) => Effect(truth, rest, r.(seen := r.seen + [Plain(text)]))
    case Group(test, body, arms, rest) =>
      var r' := if Holds(truth, test, r.defines) then Effect(truth, body, r) else ArmsEffect(truth, arms, r);
      Effect(truth, rest, r')
  }

  function ArmsEffect(truth: Truth, arms: Arms, r: Reading): Reading {
    match arms
    case NoMore => r
    case ElseArm(body, rest) => ArmsEffect(truth, rest, Effect(truth, body, r))
    case ElifArm(cond, body, rest) =>
      if truth(cond, r.defines) then Effect(truth, body, r) else ArmsEffect(truth, rest, r)
  }

  function Size(b: Block): nat {
    match b
    case Empty => 1
    case Def(_, _, rest) => 1 + Size(rest)
    case Text(_, rest) => 1 + Size(rest)
    case Group(_, body, arms, rest) => 1 + Size(body) + ArmsSize(arms) + Size(rest)
  }

  function ArmsSize(arms: Arms): nat {
    match arms
    case NoMore => 1
    case ElseArm(body, rest) => 1 + Size(body) + ArmsSize(rest)
    case ElifArm(_, body, rest) => 1 + Size(body) + ArmsSize(rest)
  }

  lemma Sizes(b: Block, arms: Arms)
    ensures Size(b) >= 1 && ArmsSize(arms) >= 1
  {
  }

  /** On well-nested text the two readings agree. */
  lemma {:induction false} EffectIsMeaning(truth: Truth, b: Block, r: Reading)
    requires WellNested(b)
    ensures Effect(truth, b, r) == Meaning(truth, b, r)
    decreases Size(b)
  {
    match b
    case Empty =>
    case Def(name, value, rest) =>
      EffectIsMeaning(truth, rest, Reading(r.defines[name := value], r.seen + [Define(name, value)]));
    case Text(text, rest) => EffectIsMeaning(truth, rest, r.(seen := r.seen + [Plain(text)]));
    case Group(test, body, arms, rest) =>
      Sizes(body, arms);
      Sizes(rest, arms);
      EffectIsMeaning(truth, body, r);
      ArmsEffectIsMeaning(truth, arms, r);
      EffectIsMeaning(truth, rest,
        if Holds(truth, test, r.defines) then Meaning(truth, body, r) else ArmsMeaning(truth, arms, r));
  }

  lemma {:induction false} ArmsEffectIsMeaning(truth: Truth, arms: Arms, r: Reading)
    requires ElseLast(arms)
    ensures ArmsEffect(truth, arms, r) == ArmsMeaning(truth, arms, r)
    decreases ArmsSize(arms)
  {
    match arms
    case NoMore =>
    case ElseArm(body, rest) =>
      Sizes(body, rest);
      EffectIsMeaning(truth, body, r);
    case ElifArm(_, body, rest) =>
      Sizes(body, rest);
      EffectIsMeaning(truth, body, r);
      ArmsEffectIsMeaning(truth, rest, r);
  }

  // ---- the flat scan is the structured effect ----

  lemma {:induction false} ScanAppend(truth: Truth, s: Scan, a: seq<Line>, b: seq<Line>)
    requires s.stack != []
    ensures ScanAll(truth, s, a + b) == ScanAll(truth, ScanAll(truth, s, a), b)
    decreases |a|
  {
    if a == [] {
      assert a + b == b;
    } else {
      assert (a + b)[1..] == a[1..] + b;
      ScanAppend(truth, Step(truth, s, a[0]), a[1..], b);
    }
  }

  lemma ScanFirst(truth: Truth, s: Scan, line: Line, rest: seq<Line>)
    requires s.stack != []
    ensures ScanAll(truth, s, [line] + rest) == ScanAll(truth, Step(truth, s, line), rest)
  {
    assert ([line] + rest)[1..] == rest;
  }

  /** An open branch is active only inside active branches, so the top one alone decides. */
  predicate Chained(stack: seq<Branch>) {
    stack != [] && forall k :: 0 < k < |stack| && stack[k].active ==> stack[k - 1].active
  }

  lemma {:induction false} TopDecides(stack: seq<Branch>)
    requires Chained(stack)
    ensures AllActive(stack) <==> stack[|stack| - 1].active
  {
    if |stack| > 1 {
      var below := stack[..|stack| - 1];
      TopDecides(below);
      if stack[|stack| - 1].active {
        forall k | 0 <= k < |stack| ensures stack[k].active { if k < |below| { assert below[k].active; } }
      }
    }
  }

  lemma PushedChained(stack: seq<Branch>, b: Branch)
    requires Chained(stack) && (b.active ==> AllActive(stack))
    ensures Chained(stack + [b]) && (AllActive(stack + [b]) <==> b.active)
  {
    TopDecides(stack);
    TopDecides(stack + [b]);
  }

  function At(stack: seq<Branch>, r: Reading): Scan {
    Scan(stack, r.defines, r.seen)
  }

  /** Scanning a block leaves the branch stack as it was and, where the branches are active, has its effect. */
  lemma {:induction false} ScanIsEffect(truth: Truth, stack: seq<Branch>, r: Reading, b: Block)
    requires Chained(stack)
    ensures ScanAll(truth, At(stack, r), Flatten(b)) == At(stack, if AllActive(stack) then Effect(truth, b, r) else r)
    decreases Size(b), 0
  {
    var s := At(stack, r);
    match b
    case Empty =>
    case Def(name, value, rest) =>
      var line := Define(name, value);
      LineFirst(truth, stack, r, line, Flatten(rest));
      var r' := Reading(r.defines[name := value], r.seen + [line]);
      ScanIsEffect(truth, stack, if AllActive(stack) then r' else r, rest);
    case Text(text, rest) =>
      LineFirst(truth, stack, r, Plain(text), Flatten(rest));
      ScanIsEffect(truth, stack, if AllActive(stack) then r.(seen := r.seen + [Plain(text)]) else r, rest);
    case Group(test, body, arms, rest) =>
      Sizes(body, arms);
      Sizes(rest, arms);
      ScanIsGroup(truth, stack, r, test, body, arms);
      var r' := GroupEffect(truth, AllActive(stack), test, body, arms, r);
      GroupFirst(truth, s, test, body, arms, rest);
      ScanIsEffect(truth, stack, r', rest);
  }

  lemma GroupFirst(truth: Truth, s: Scan, test: Test, body: Block, arms: Arms, rest: Block)
    requires s.stack != []
    ensures var group := [TestLine(test)] + (Flatten(body) + FlattenArms(arms));
            ScanAll(truth, s, Flatten(Group(test, body, arms, rest)))
                == ScanAll(truth, ScanAll(truth, s, group), Flatten(rest))
  {
    var group := [TestLine(test)] + (Flatten(body) + FlattenArms(arms));
    Regrouped([TestLine(test)], Flatten(body), FlattenArms(arms), Flatten(rest));
    ScanAppend(truth, s, group, Flatten(rest));
  }

  lemma Regrouped(a: seq<Line>, b: seq<Line>, c: seq<Line>, d: seq<Line>)
    ensures a + (b + (c + d)) == (a + (b + c)) + d
  {
  }

  /** A line outside a group counts when all branches are active. */
  lemma LineFirst(truth: Truth, stack: seq<Branch>, r: Reading, line: Line, rest: seq<Line>)
    requires stack != [] && (line.Define? || line.Plain?)
    ensures var defines := if line.Define? then r.defines[line.name := line.value] else r.defines;
            ScanAll(truth, At(stack, r), [line] + rest)
              == ScanAll(truth, At(stack, if AllActive(stack) then Reading(defines, r.seen + [line]) else r), rest)
  {
    ScanFirst(truth, At(stack, r), line, rest);
  }

  /** The effect of one group in active or inactive surroundings. */
  function GroupEffect(truth: Truth, on: bool, test: Test, body: Block, arms: Arms, r: Reading): Reading {
    if !on then r else if Holds(truth, test, r.defines) then Effect(truth, body, r) else ArmsEffect(truth, arms, r)
  }

  /** The branch a test opens. */
  function Opens(truth: Truth, stack: seq<Branch>, test: Test, defines: Defines): Branch {
    var active := AllActive(stack) && Holds(truth, test, defines);
    Branch(active, active)
  }

  lemma TestOpens(truth: Truth, stack: seq<Branch>, r: Reading, test: Test)
    requires stack != []
    ensures Step(truth, At(stack, r), TestLine(test)) == At(stack + [Opens(truth, stack, test, r.defines)], r)
  {
  }

  lemma {:induction false} ScanIsGroup(truth: Truth, stack: seq<Branch>, r: Reading, test: Test, body: Block,
      arms: Arms)
    requires Chained(stack)
    ensures ScanAll(truth, At(stack, r), [TestLine(test)] + (Flatten(body) + FlattenArms(arms)))
              == At(stack, GroupEffect(truth, AllActive(stack), test, body, arms, r))
    decreases Size(body) + ArmsSize(arms), 1
  {
    TestOpens(truth, stack, r, test);
    ScanFirst(truth, At(stack, r), TestLine(test), Flatten(body) + FlattenArms(arms));
    ArmThenRest(truth, stack, Opens(truth, stack, test, r.defines), r, body, arms);
  }

  /** The reading after the body of the arm that `top` stands for. */
  function AfterBody(truth: Truth, top: Branch, r: Reading, body: Block): Reading {
    if top.active then Effect(truth, body, r) else r
  }

  /** The reading after the arms behind one that left `top`. */
  function AfterArms(truth: Truth, on: bool, top: Branch, r: Reading, arms: Arms): Reading {
    if !top.taken && on then ArmsEffect(truth, arms, r) else r
  }

  /** The body of an arm and the rest of its group. */
  lemma {:induction false} ArmThenRest(truth: Truth, stack: seq<Branch>, top: Branch, r: Reading, body: Block,
      arms: Arms)
    requires Chained(stack) && (top.active || top.taken ==> AllActive(stack))
    ensures ScanAll(truth, At(stack + [top], r), Flatten(body) + FlattenArms(arms))
              == At(stack, AfterArms(truth, AllActive(stack), top, AfterBody(truth, top, r, body), arms))
    decreases Size(body) + ArmsSize(arms), 0
  {
    Sizes(body, arms);
    PushedChained(stack, top);
    ScanIsEffect(truth, stack + [top], r, body);
    ScanAppend(truth, At(stack + [top], r), Flatten(body), FlattenArms(arms));
    ScanIsArms(truth, stack, top, AfterBody(truth, top, r, body), arms);
  }

  /** The branch an `#else` or `#elif` makes of the top one. */
  function ElseTop(on: bool, top: Branch): Branch {
    Branch(on && !top.taken, top.taken)
  }

  function ElifTop(truth: Truth, on: bool, top: Branch, cond: string, defines: Defines): Branch {
    var active := !top.taken && on && truth(cond, defines);
    Branch(active, top.taken || active)
  }

  lemma ArmLine(truth: Truth, stack: seq<Branch>, top: Branch, r: Reading, cond: string)
    requires Chained(stack)
    ensures Step(truth, At(stack + [top], r), Else) == At(stack + [ElseTop(AllActive(stack), top)], r)
    ensures Step(truth, At(stack + [top], r), Elif(cond))
              == At(stack + [ElifTop(truth, AllActive(stack), top, cond, r.defines)], r)
  {
    TopDecides(stack);
    assert (stack + [top])[..|stack|] == stack;
  }

  /** What follows an arm: nothing is read if an arm was taken or the surroundings are inactive. */
  lemma {:induction false} ScanIsArms(truth: Truth, stack: seq<Branch>, top: Branch, r: Reading, arms: Arms)
    requires Chained(stack) && (top.taken ==> AllActive(stack))
    ensures ScanAll(truth, At(stack + [top], r), FlattenArms(arms))
              == At(stack, AfterArms(truth, AllActive(stack), top, r, arms))
    decreases ArmsSize(arms), 2
  {
    var s, on := At(stack + [top], r), AllActive(stack);
    match arms
    case NoMore => ScanClose(truth, stack, top, r);
    case ElseArm(body, rest) =>
      ArmLine(truth, stack, top, r, "");
      ScanFirst(truth, s, Else, Flatten(body) + FlattenArms(rest));
      ArmThenRest(truth, stack, ElseTop(on, top), r, body, rest);
    case ElifArm(cond, body, rest) =>
      ArmLine(truth, stack, top, r, cond);
      ScanFirst(truth, s, Elif(cond), Flatten(body) + FlattenArms(rest));
      ArmThenRest(truth, stack, ElifTop(truth, on, top, cond, r.defines), r, body, rest);
  }

  lemma ScanClose(truth: Truth, stack: seq<Branch>, top: Branch, r: Reading)
    requires stack != []
    ensures ScanAll(truth, At(stack + [top], r), [Endif]) == At(stack, r)
  {
    assert (stack + [top])[..|stack|] == stack;
    ScanFirst(truth, At(stack + [top], r), Endif, []);
    assert [Endif] + [] == [Endif];
  }

  /**
   * On well-nested text the flat scan computes the structured meaning: the same macros, the same active
   * lines in the same order, and every branch closed again.
   */
  lemma PreprocessIsMeaning(truth: Truth, seed: Defines, b: Block)
    requires WellNested(b)
    ensures ScanAll(truth, Opened(seed), Flatten(b)) == At([Branch(true, false)], Meaning(truth, b, Reading(seed, [])))
  {
    ScanIsEffect(truth, [Branch(true, false)], Reading(seed, []), b);
    EffectIsMeaning(truth, b, Reading(seed, []));
  }

  // ---- how many arms of a group are read ----

  /** For each arm behind the first one, whether the scan is active when it enters the arm. */
  function ArmFlags(truth: Truth, s: Scan, arms: Arms): (flags: seq<bool>)
    requires s.stack != []
    decreases arms
  {
    match arms
    case NoMore => []
    case ElseArm(body, rest) =>
      var s' := Step(truth, s, Else);
      [AllActive(s'.stack)] + ArmFlags(truth, ScanAll(truth, s', Flatten(body)), rest)
    case ElifArm(cond, body, rest) =>
      var s' := Step(truth, s, Elif(cond));
      [AllActive(s'.stack)] + ArmFlags(truth, ScanAll(truth, s', Flatten(body)), rest)
  }

  /** The same for all arms of a group. */
  function GroupFlags(truth: Truth, s: Scan, test: Test, body: Block, arms: Arms): seq<bool>
    requires s.stack != []
  {
    var s' := Step(truth, s, TestLine(test));
    [AllActive(s'.stack)] + ArmFlags(truth, ScanAll(truth, s', Flatten(body)), arms)
  }

  function Count(flags: seq<bool>): nat {
    if flags == [] then 0 else (if flags[0] then 1 else 0) + Count(flags[1..])
  }

  /** With nothing taken yet, some arm will be read: there is an `#else` or an `#elif` that holds when reached. */
  predicate SomeArmHolds(truth: Truth, arms: Arms, r: Reading) {
    match arms
    case NoMore => false
    case ElseArm(_, _) => true
    case ElifArm(cond, _, rest) => truth(cond, r.defines) || SomeArmHolds(truth, rest, r)
  }

  /** With nothing taken yet, an `#else` is reached and some arm behind it holds. */
  predicate ArmBehindElse(truth: Truth, arms: Arms, r: Reading) {
    match arms
    case NoMore => false
    case ElseArm(body, rest) => SomeArmHolds(truth, rest, Effect(truth, body, r))
    case ElifArm(cond, _, rest) => !truth(cond, r.defines) && ArmBehindElse(truth, rest, r)
  }

  lemma CountFirst(flag: bool, flags: seq<bool>)
    ensures Count([flag] + flags) == (if flag then 1 else 0) + Count(flags)
  {
    assert ([flag] + flags)[1..] == flags;
  }

  /** Arms behind a taken one, or in inactive surroundings, are not read; else those before the first one taken are. */
  lemma {:induction false} ArmsRead(truth: Truth, stack: seq<Branch>, top: Branch, r: Reading, arms: Arms)
    requires Chained(stack) && (top.taken ==> AllActive(stack))
    ensures var n := Count(ArmFlags(truth, At(stack + [top], r), arms));
            && (top.taken || !AllActive(stack) ==> n == 0)
            && (!top.taken && AllActive(stack) ==>
                  (n > 0 <==> SomeArmHolds(truth, arms, r)) && (n > 1 <==> ArmBehindElse(truth, arms, r)))
    decreases arms
  {
    match arms
    case NoMore =>
    case ElseArm(body, rest) =>
      ArmLine(truth, stack, top, r, "");
      OneArm(truth, stack, ElseTop(AllActive(stack), top), r, body, rest);
      ArmsRead(truth, stack, ElseTop(AllActive(stack), top), AfterBody(truth, ElseTop(AllActive(stack), top), r, body),
          rest);
    case ElifArm(cond, body, rest) =>
      var top' := ElifTop(truth, AllActive(stack), top, cond, r.defines);
      ArmLine(truth, stack, top, r, cond);
      OneArm(truth, stack, top', r, body, rest);
      ArmsRead(truth, stack, top', AfterBody(truth, top', r, body), rest);
  }

  /** Entering an arm and scanning its body. */
  lemma OneArm(truth: Truth, stack: seq<Branch>, top: Branch, r: Reading, body: Block, rest: Arms)
    requires Chained(stack) && (top.active ==> AllActive(stack))
    ensures AllActive(stack + [top]) == top.active
    ensures ScanAll(truth, At(stack + [top], r), Flatten(body)) == At(stack + [top], AfterBody(truth, top, r, body))
    ensures var flags := ArmFlags(truth, At(stack + [top], AfterBody(truth, top, r, body)), rest);
            Count([top.active] + flags) == (if top.active then 1 else 0) + Count(flags)
  {
    PushedChained(stack, top);
    ScanIsEffect(truth, stack + [top], r, body);
    CountFirst(top.active, ArmFlags(truth, At(stack + [top], AfterBody(truth, top, r, body)), rest));
  }

  /**
   * More than one arm of a group is read exactly when the surroundings are active, the first arm does not
   * hold, and an `#else` is reached with nothing taken and a later `#else` or true `#elif` behind it.
   */
  lemma ManyArmsExact(truth: Truth, stack: seq<Branch>, r: Reading, test: Test, body: Block, arms: Arms)
    requires Chained(stack)
    ensures Count(GroupFlags(truth, At(stack, r), test, body, arms)) > 1 <==>
              AllActive(stack) && !Holds(truth, test, r.defines) && ArmBehindElse(truth, arms, r)
  {
    var top := Opens(truth, stack, test, r.defines);
    TestOpens(truth, stack, r, test);
    OneArm(truth, stack, top, r, body, arms);
    ArmsRead(truth, stack, top, AfterBody(truth, top, r, body), arms);
  }

  /** In particular never when every `#else` comes last. */
  lemma {:induction false} ElseLastReadsOne(truth: Truth, arms: Arms, r: Reading)
    requires ElseLast(arms)
    ensures !ArmBehindElse(truth, arms, r)
    decreases arms
  {
    match arms
    case NoMore =>
    case ElseArm(_, _) =>
    case ElifArm(_, _, rest) => ElseLastReadsOne(truth, rest, r);
  }

  lemma ReadTwo(truth: Truth, seed: Defines, t: string, u: string)
    ensures Effect(truth, Text(t, Empty), Reading(seed, [])) == Reading(seed, [Plain(t)])
    ensures Effect(truth, Text(u, Empty), Reading(seed, [Plain(t)])) == Reading(seed, [Plain(t), Plain(u)])
  {
    assert [] + [Plain(t)] == [Plain(t)] && [Plain(t)] + [Plain(u)] == [Plain(t), Plain(u)];
  }

  /** Two `#else` arms are both read. */
  lemma TwoElsesRead(truth: Truth, seed: Defines, cond: string, t: string, u: string)
    requires !truth(cond, seed)
    ensures var arms := ElseArm(Text(t, Empty), ElseArm(Text(u, Empty), NoMore));
            ScanAll(truth, Opened(seed), Flatten(Group(Expr(cond), Empty, arms, Empty))).seen == [Plain(t), Plain(u)]
  {
    var arms := ElseArm(Text(t, Empty), ElseArm(Text(u, Empty), NoMore));
    ReadTwo(truth, seed, t, u);
    ScanIsEffect(truth, [Branch(true, false)], Reading(seed, []), Group(Expr(cond), Empty, arms, Empty));
    assert ArmsEffect(truth, arms, Reading(seed, [])) == ArmsEffect(truth, arms.rest, Reading(seed, [Plain(t)]));
    assert ArmsEffect(truth, arms.rest, Reading(seed, [Plain(t)])) == Reading(seed, [Plain(t), Plain(u)]);
    assert Effect(truth, Empty, Reading(seed, [])) == Reading(seed, []);
  }

  /** An `#elif` that holds is read behind an `#else` that was read, since `#else` does not mark its group as taken. */
  lemma ElifAfterElseRead(truth: Truth, seed: Defines, cond: string, later: string, t: string, u: string)
    requires !truth(cond, seed) && truth(later, seed)
    ensures var arms := ElseArm(Text(t, Empty), ElifArm(later, Text(u, Empty), NoMore));
            ScanAll(truth, Opened(seed), Flatten(Group(Expr(cond), Empty, arms, Empty))).seen == [Plain(t), Plain(u)]
  {
    var arms := ElseArm(Text(t, Empty), ElifArm(later, Text(u, Empty), NoMore));
    ReadTwo(truth, seed, t, u);
    ScanIsEffect(truth, [Branch(true, false)], Reading(seed, []), Group(Expr(cond), Empty, arms, Empty));
    assert ArmsEffect(truth, arms, Reading(seed, [])) == ArmsEffect(truth, arms.rest, Reading(seed, [Plain(t)]));
  }

  // ---- single directives ----

  /** A line between the first line of a group and its `#endif`, with nothing open before. */
  lemma GuardedLine(truth: Truth, seed: Defines, guard: Line, t: string, holds: bool)
    requires Step(truth, Opened(seed), guard) == Opened(seed).(stack := [Branch(true, false), Branch(holds, holds)])
    ensures ScanAll(truth, Opened(seed), [guard, Plain(t), Endif])
              == Opened(seed).(seen := if holds then [Plain(t)] else [])
  {
    var lines := [guard, Plain(t), Endif];
    var s1 := Step(truth, Opened(seed), guard);
    var s2 := Step(truth, s1, Plain(t));
    assert lines[1..] == [Plain(t), Endif] && lines[1..][1..] == [Endif] && [Endif][1..] == [];
    assert s1.stack[0].active && s1.stack[1].active == holds && [] + [Plain(t)] == [Plain(t)];
    assert AllActive(s1.stack) == holds;
    assert s2 == s1.(seen := if holds then [Plain(t)] else []);
    assert s2.stack[..1] == [Branch(true, false)];
    assert Step(truth, s2, Endif) == Opened(seed).(seen := s2.seen);
    assert ScanAll(truth, s2, [Endif]) == Step(truth, s2, Endif);
    assert ScanAll(truth, s1, [Plain(t), Endif]) == ScanAll(truth, s2, [Endif]);
  }

  /** A line behind `#ifdef` is read exactly when the macro has a value other than zero, behind `#ifndef` otherwise. */
  lemma IfDefReads(truth: Truth, seed: Defines, macro: string, t: string)
    ensures ScanAll(truth, Opened(seed), [IfDef(macro), Plain(t), Endif])
              == Opened(seed).(seen := if macro in seed && seed[macro] != 0 then [Plain(t)] else [])
    ensures ScanAll(truth, Opened(seed), [IfNotDef(macro), Plain(t), Endif])
              == Opened(seed).(seen := if macro in seed && seed[macro] != 0 then [] else [Plain(t)])
  {
    var on := macro in seed && seed[macro] != 0;
    assert [Branch(true, false)] + [Branch(on, on)] == [Branch(true, false), Branch(on, on)];
    assert [Branch(true, false)] + [Branch(!on, !on)] == [Branch(true, false), Branch(!on, !on)];
    GuardedLine(truth, seed, IfDef(macro), t, on);
    GuardedLine(truth, seed, IfNotDef(macro), t, !on);
  }

  /** A definition that is read is in force for the lines after it, and only one that is read. */
  lemma DefineTakesEffect(truth: Truth, s: Scan, name: string, value: int)
    requires s.stack != []
    ensures var s' := Step(truth, s, Define(name, value));
            && s'.stack == s.stack
            && s'.defines == (if forall k :: 0 <= k < |s.stack| ==> s.stack[k].active
                              then s.defines[name := value] else s.defines)
  {
  }

  /** Directives without an `#if` are not refused: `#else` and `#endif` have no effect, `#elif` switches the rest. */
  lemma StrayDirectives(truth: Truth, s: Scan, cond: string)
    requires s.stack == [Branch(true, false)]
    ensures Step(truth, s, Else) == s && Step(truth, s, Endif) == s
    ensures Step(truth, s, Elif(cond)) == s.(stack := [Branch(truth(cond, s.defines), truth(cond, s.defines))])
  {
  }
}
