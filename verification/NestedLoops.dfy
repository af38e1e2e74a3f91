/** Two nested hardware loops, as the documentation allows them: loop 0 inside loop 1, its
    counter set again by instructions of the outer body. */
module NestedLoops {
  import A = Aligner
  import H = HwLoop
  import L = LoopOrder
  import O = OneLoop
  import S = LoopStages
  import opened Runs

  /** Start and end addresses of the inner loop 0 and the outer loop 1. */
  datatype Nest = Nest(start0: nat, end0: nat, start1: nat, end1: nat)

  /** The documented constraints: at least three instructions, and the outer end at least
      two instructions behind the inner one. */
  predicate Nested(n: Nest) {
    n.start1 <= n.start0 && n.start0 + 3 <= n.end0 && n.end0 + 2 <= n.end1 < A.WORDS
  }

  /** Both register sets with these counters. */
  function Regs(n: Nest, c0: nat, c1: nat): H.Pair { H.Loops([n.start0, n.start1], [n.end0, n.end1], [c0, c1]) }

  predicate InRegion(n: Nest, pc: A.Pc) { n.start1 <= pc.index < n.end1 }

  predicate InInner(n: Nest, pc: A.Pc) { n.start0 <= pc.index < n.end0 }

  // ------------------------------------------------------------------- one step

  function SetInner(c: nat): L.LoopWrite { H.Write(false, false, true, 0, 0, 0, c) }

  /** The instruction writes nothing, or outside the inner body the inner counter. */
  predicate InnerOnly(n: Nest, pc: A.Pc, act: L.Action) {
    act == L.Executes(L.NoWrite()) || (!InInner(n, pc) && act.Executes? && act.write == SetInner(act.write.count))
  }

  /** In DECODE with iterations left only where a body begins. */
  predicate DecodeOk(n: Nest, a: L.At) {
    a.fsm == H.Decode && ((InInner(n, a.pc) && a.loops.count[0] > 1) || (InRegion(n, a.pc) && a.loops.count[1] > 1)) ==>
      a.pc.index == n.start0 || a.pc.index == n.start1
  }

  /** The registers are the nest's; in its code instructions fill words. */
  predicate InNest(n: Nest, a: L.At) {
    && Nested(n) && a.loops == Regs(n, a.loops.count[0], a.loops.count[1])
    && (InRegion(n, a.pc) ==> !a.pc.upper) && DecodeOk(n, a)
  }

  /** The nest is entered at its start only. */
  predicate EntersWell(n: Nest, pc: A.Pc, next: A.Pc) {
    !InRegion(n, pc) && InRegion(n, next) ==> next == A.Pc(n.start1, false)
  }

  lemma CountsAfter(n: Nest, pc: A.Pc, c0: nat, c1: nat, act: L.Action)
    requires Nested(n) && InnerOnly(n, pc, act)
    ensures L.NextLoops(Regs(n, c0, c1), pc, act)
         == Regs(n, if act.write.we2 then act.write.count else if L.Last(Regs(n, c0, c1), 0, pc) then c0 - 1 else c0,
                 if L.Last(Regs(n, c0, c1), 1, pc) then c1 - 1 else c1)
  {
  }

  lemma NestStepSound(n: Nest, a: L.At, act: L.Action, code: A.Code)
    requires InNest(n, a) && InnerOnly(n, a.pc, act) && O.Uncompressed(code, n.start1, n.end1)
    requires EntersWell(n, a.pc, A.After(code, a.pc))
    ensures L.Sound(a, act, code)
  {
    CountsAfter(n, a.pc, a.loops.count[0], a.loops.count[1], act);
  }

  lemma NestStepStays(n: Nest, a: L.At, act: L.Action, code: A.Code)
    requires InNest(n, a) && InnerOnly(n, a.pc, act) && O.Uncompressed(code, n.start1, n.end1)
    requires EntersWell(n, a.pc, A.After(code, a.pc))
    ensures InNest(n, L.After(a, act, code))
  {
    CountsAfter(n, a.pc, a.loops.count[0], a.loops.count[1], act);
  }

  /** Every step keeps the nest's conditions, and the controller can follow it. */
  lemma NestStep(n: Nest, a: L.At, act: L.Action, code: A.Code)
    requires InNest(n, a) && InnerOnly(n, a.pc, act) && O.Uncompressed(code, n.start1, n.end1)
    requires EntersWell(n, a.pc, A.After(code, a.pc))
    ensures L.Sound(a, act, code) && InNest(n, L.After(a, act, code))
  {
    NestStepSound(n, a, act, code);
    NestStepStays(n, a, act, code);
  }

  /** No jump back meets DECODE. */
  lemma NeverBranches(n: Nest, a: L.At, act: L.Action)
    requires InNest(n, a) && act.Executes?
    ensures !S.Branching(a, act)
  {
  }

  // ------------------------------------------------------------- any run of the nest

  /** Only the inner counter is written, outside the inner body, and nothing jumps. */
  ghost predicate NestProgram(n: Nest, prog: L.Program) { forall k: nat, pc :: InnerOnly(n, pc, prog(k, pc)) }

  function EntersOk(n: Nest, code: A.Code): (L.At, nat) -> bool {
    (a: L.At, k: nat) => EntersWell(n, a.pc, A.After(code, a.pc))
  }

  /** For m steps the nest is entered at its start only. */
  predicate EnteredWell(n: Nest, a: L.At, prog: L.Program, code: A.Code, m: nat) {
    Kept(a, L.Stepper(prog, code), EntersOk(n, code), L.From(0), m)
  }

  /** What the outer body writes to the inner counter, and when, is up to the program: the
      controller can follow it. */
  lemma NestIsSound(n: Nest, a: L.At, prog: L.Program, code: A.Code, m: nat)
    requires InNest(n, a) && NestProgram(n, prog) && O.Uncompressed(code, n.start1, n.end1)
    requires EnteredWell(n, a, prog, code, m)
    ensures L.SoundFor(a, prog, code, 0, m) && InNest(n, L.Steps(a, prog, code, 0, m))
  {
    var inv, step, ok, given := (x: L.At) => InNest(n, x), L.Stepper(prog, code), L.Ok(prog, code), EntersOk(n, code);
    forall x: L.At, k | inv(x) && given(x, k) ensures ok(x, k) && inv(step(x, k)) {
      NestStep(n, x, prog(k, x.pc), code);
    }
    KeptAlong(inv, a, step, given, ok, L.From(0), m);
  }

  /** Under every pattern of stalls and fetch gaps, entered anywhere outside or where a body
      begins, whatever the outer body writes to the inner counter and when: what leaves ID
      is the promised order of the two loops, and both counters are those of that order. */
  lemma NestRunsInOrder(s: S.Sys, env: nat -> S.Env, n: Nest, a: L.At, prog: L.Program, code: A.Code, m: nat, k: nat)
    requires S.Entering(s, a, code) && InNest(n, a) && NestProgram(n, prog)
    requires O.Uncompressed(code, n.start1, n.end1) && EnteredWell(n, a, prog, code, m)
    ensures var t := Run(s, S.Stepper(code, prog), env, k); S.Agrees(t.retired, t.loops, a, prog, code, m)
  {
    NestIsSound(n, a, prog, code, m);
    S.RunsInOrder(s, env, a, prog, code, m, k);
  }

  /** Never more than one counter counts down. */
  lemma CountsOneAtOnce(s: S.Sys, n: Nest, a: L.At, act: L.Action, code: A.Code)
    requires S.Inv(s, a, act, code) && L.Sound(a, act, code) && InNest(n, a)
    ensures var o := S.Outputs(s, act); !(o.dec0 && o.dec1)
  {
    if s.idValid { S.HeldControl(s, a, act, code); }
  }

  lemma NestNeverBranches(n: Nest, a: L.At, prog: L.Program, code: A.Code, k: nat)
    requires InNest(n, a) && NestProgram(n, prog) && O.Uncompressed(code, n.start1, n.end1)
    requires EnteredWell(n, a, prog, code, k)
    ensures !S.BranchesAt(a, prog, code, k)
  {
    NestIsSound(n, a, prog, code, k);
    var b := L.Steps(a, prog, code, 0, k);
    NeverBranches(n, b, prog(k, b.pc));
  }

  /** Neither loop ever costs a cycle: whatever the gaps and stalls, a cycle with a word
      available and no stall leaves an instruction in ID. */
  lemma NoCycleLost(s: S.Sys, env: nat -> S.Env, n: Nest, a: L.At, prog: L.Program, code: A.Code, k: nat)
    requires S.Entering(s, a, code) && s.al.state != A.BranchMisaligned && InNest(n, a) && NestProgram(n, prog)
    requires O.Uncompressed(code, n.start1, n.end1) && forall m: nat :: EnteredWell(n, a, prog, code, m)
    ensures !S.CycleLost(s, env, code, prog, k)
  {
    forall m: nat ensures L.SoundFor(a, prog, code, 0, m) { NestIsSound(n, a, prog, code, m); }
    forall m: nat ensures !S.BranchesAt(a, prog, code, m) { NestNeverBranches(n, a, prog, code, m); }
    S.CycleLostIff(s, a, prog, code);
  }

  // ------------------------------------------------------ the documentation's example

  /** From the i-th instruction on, one at word r sets the inner counter to m, and nothing
      else is written. */
  ghost predicate Resets(prog: L.Program, i: nat, r: nat, m: nat) {
    forall k: nat, pc :: k >= i ==> prog(k, pc) == L.Executes(if pc == A.Pc(r, false) then SetInner(m) else L.NoWrite())
  }

  predicate ResetBehind(n: Nest, r: nat) { Nested(n) && n.end0 <= r < n.end1 }

  /** One pass of the outer loop: up to the inner one, that m times, and the rest. */
  function Pass(code: A.Code, n: Nest, m: nat): seq<A.Insn>
    requires Nested(n)
  {
    O.Body(code, n.start1, n.start0) + O.Iterations(code, n.start0, n.end0, m) + O.Body(code, n.end0, n.end1)
  }

  function Passes(code: A.Code, n: Nest, m: nat, count: nat): seq<A.Insn>
    requires Nested(n)
  {
    if count == 0 then [] else Pass(code, n, m) + Passes(code, n, m, count - 1)
  }

  /** At word p with these counters. */
  predicate Within(n: Nest, a: L.At, p: nat, c0: nat, c1: nat) {
    && InNest(n, a) && n.start1 <= p < n.end1 && a.pc == A.Pc(p, false) && a.loops == Regs(n, c0, c1)
    && c1 > 0 && (p < n.end0 ==> c0 > 0)
  }

  function NextInner(n: Nest, r: nat, m: nat, p: nat, c0: nat): nat {
    if p == r then m else if p + 1 == n.end0 && c0 > 0 then c0 - 1 else c0
  }

  /** The next instruction of the nest. */
  lemma PassStep(n: Nest, a: L.At, p: nat, c0: nat, c1: nat, r: nat, m: nat, act: L.Action, code: A.Code)
    requires Within(n, a, p, c0, c1) && ResetBehind(n, r) && m > 0 && O.Uncompressed(code, n.start1, n.end1)
    requires act == L.Executes(if p == r then SetInner(m) else L.NoWrite()) && (p > r ==> c0 == m)
    ensures L.Sound(a, act, code)
    ensures var b, d0 := L.After(a, act, code), NextInner(n, r, m, p, c0);
      if p + 1 == n.end0 && c0 > 1 then Within(n, b, n.start0, d0, c1)
      else if p + 1 < n.end1 then Within(n, b, p + 1, d0, c1)
      else if c1 > 1 then Within(n, b, n.start1, d0, c1 - 1)
      else b.pc == A.Pc(n.end1, false) && b.loops == Regs(n, d0, 0)
  {
    NestStep(n, a, act, code);
    CountsAfter(n, a.pc, c0, c1, act);
  }

  /** What is left to execute from word p. */
  function Rest(code: A.Code, n: Nest, r: nat, m: nat, p: nat, c0: nat, c1: nat): seq<A.Insn>
    requires ResetBehind(n, r) && m > 0 && n.start1 <= p < n.end1 && c1 > 0
    requires (p < n.end0 ==> c0 > 0) && (p > r ==> c0 == m)
    decreases c1, if p < n.end0 then 1 else 0, if p < n.end0 then c0 else 0, n.end1 - p
  {
    var d0 := NextInner(n, r, m, p, c0);
    [A.At(code, A.Pc(p, false))]
    + (if p + 1 == n.end0 && c0 > 1 then Rest(code, n, r, m, n.start0, d0, c1)
       else if p + 1 < n.end1 then Rest(code, n, r, m, p + 1, d0, c1)
       else if c1 > 1 then Rest(code, n, r, m, n.start1, d0, c1 - 1) else [])
  }

  /** The word that follows within the nest, and the outer iterations left there. */
  function NextWord(n: Nest, p: nat, c0: nat): nat {
    if p + 1 == n.end0 && c0 > 1 then n.start0 else if p + 1 < n.end1 then p + 1 else n.start1
  }

  function NextOuter(n: Nest, p: nat, c1: nat): int { if p + 1 < n.end1 then c1 else c1 - 1 }

  predicate LastOfAll(n: Nest, p: nat, c1: nat) { p + 1 == n.end1 && c1 == 1 }

  lemma RestNext(code: A.Code, n: Nest, r: nat, m: nat, p: nat, c0: nat, c1: nat)
    requires ResetBehind(n, r) && m > 0 && n.start1 <= p < n.end1 && c1 > 0
    requires (p < n.end0 ==> c0 > 0) && (p > r ==> c0 == m)
    ensures Rest(code, n, r, m, p, c0, c1)
         == [A.At(code, A.Pc(p, false))]
            + (if LastOfAll(n, p, c1) then []
               else Rest(code, n, r, m, NextWord(n, p, c0), NextInner(n, r, m, p, c0), NextOuter(n, p, c1)))
  {
  }

  lemma {:induction false} RestLeads(n: Nest, a: L.At, p: nat, c0: nat, c1: nat, r: nat, m: nat, prog: L.Program,
                                     code: A.Code, i: nat)
    requires Within(n, a, p, c0, c1) && ResetBehind(n, r) && m > 0 && (p > r ==> c0 == m)
    requires O.Uncompressed(code, n.start1, n.end1) && Resets(prog, i, r, m)
    ensures L.LeadsTo(a, prog, code, i, Rest(code, n, r, m, p, c0, c1), A.Pc(n.end1, false), Regs(n, m, 0))
    decreases c1, if p < n.end0 then 1 else 0, if p < n.end0 then c0 else 0, n.end1 - p
  {
    var b, d0, d1 := L.After(a, prog(i, a.pc), code), NextInner(n, r, m, p, c0), NextOuter(n, p, c1);
    PassStep(n, a, p, c0, c1, r, m, prog(i, a.pc), code);
    RestNext(code, n, r, m, p, c0, c1);
    if LastOfAll(n, p, c1) {
      O.LeadsNowhere(b, prog, code, i + 1);
      L.StepBefore(a, prog, code, i, b, [], A.Pc(n.end1, false), Regs(n, m, 0));
    } else {
      RestLeads(n, b, NextWord(n, p, c0), d0, d1, r, m, prog, code, i + 1);
      L.StepBefore(a, prog, code, i, b, Rest(code, n, r, m, NextWord(n, p, c0), d0, d1), A.Pc(n.end1, false),
                   Regs(n, m, 0));
    }
  }

  /** Behind the inner loop. */
  lemma {:induction false} RestBehind(code: A.Code, n: Nest, r: nat, m: nat, p: nat, c0: nat, c1: nat)
    requires ResetBehind(n, r) && m > 0 && n.end0 <= p < n.end1 && c1 > 0 && (p > r ==> c0 == m)
    ensures Rest(code, n, r, m, p, c0, c1)
         == O.Body(code, p, n.end1) + (if c1 > 1 then Rest(code, n, r, m, n.start1, m, c1 - 1) else [])
    decreases n.end1 - p
  {
    var more := if c1 > 1 then Rest(code, n, r, m, n.start1, m, c1 - 1) else [];
    O.BodyFront(code, p, n.end1);
    O.Regroup([A.At(code, A.Pc(p, false))], O.Body(code, p + 1, n.end1), more);
    if p + 1 < n.end1 { RestBehind(code, n, r, m, p + 1, NextInner(n, r, m, p, c0), c1); }
  }

  lemma AnotherIteration(code: A.Code, start: nat, end: nat, c: nat, behind: seq<A.Insn>)
    requires start <= end && c > 0
    ensures O.Iterations(code, start, end, c) + behind
         == O.Body(code, start, end) + (O.Iterations(code, start, end, c - 1) + behind)
  {
    O.Regroup(O.Body(code, start, end), O.Iterations(code, start, end, c - 1), behind);
  }

  /** What follows the current iteration of the inner loop. */
  function MoreInner(code: A.Code, n: Nest, r: nat, m: nat, c0: nat, c1: nat): seq<A.Insn>
    requires ResetBehind(n, r) && m > 0 && c0 > 0 && c1 > 0
  {
    O.Iterations(code, n.start0, n.end0, c0 - 1) + Rest(code, n, r, m, n.end0, 0, c1)
  }

  lemma InnerOn(code: A.Code, n: Nest, r: nat, m: nat, p: nat, c0: nat, c1: nat, more: seq<A.Insn>)
    requires ResetBehind(n, r) && m > 0 && n.start0 <= p && p + 1 < n.end0 && c0 > 0 && c1 > 0
    requires Rest(code, n, r, m, p + 1, c0, c1) == O.Body(code, p + 1, n.end0) + more
    ensures Rest(code, n, r, m, p, c0, c1) == O.Body(code, p, n.end0) + more
  {
    O.BodyFront(code, p, n.end0);
    O.Regroup([A.At(code, A.Pc(p, false))], O.Body(code, p + 1, n.end0), more);
  }

  lemma LastOfBody(code: A.Code, p: nat, end: nat, more: seq<A.Insn>)
    requires p + 1 == end
    ensures [A.At(code, A.Pc(p, false))] + more == O.Body(code, p, end) + more
  {
    O.BodyFront(code, p, end);
    assert O.Body(code, p, end) == [A.At(code, A.Pc(p, false))];
  }

  lemma InnerBack(code: A.Code, n: Nest, r: nat, m: nat, c0: nat, c1: nat, next: seq<A.Insn>)
    requires ResetBehind(n, r) && m > 0 && c0 > 1 && c1 > 0
    requires next == Rest(code, n, r, m, n.start0, c0 - 1, c1) == MoreInner(code, n, r, m, c0, c1)
    ensures Rest(code, n, r, m, n.end0 - 1, c0, c1)
         == O.Body(code, n.end0 - 1, n.end0) + MoreInner(code, n, r, m, c0, c1)
  {
    LastOfBody(code, n.end0 - 1, n.end0, next);
  }

  lemma NoMore(code: A.Code, start: nat, end: nat, behind: seq<A.Insn>)
    requires start <= end
    ensures O.Iterations(code, start, end, 0) + behind == behind
  {
  }

  lemma InnerDone(code: A.Code, n: Nest, r: nat, m: nat, c1: nat)
    requires ResetBehind(n, r) && m > 0 && c1 > 0
    ensures Rest(code, n, r, m, n.end0 - 1, 1, c1) == O.Body(code, n.end0 - 1, n.end0) + MoreInner(code, n, r, m, 1, c1)
  {
    NoMore(code, n.start0, n.end0, Rest(code, n, r, m, n.end0, 0, c1));
    LastOfBody(code, n.end0 - 1, n.end0, Rest(code, n, r, m, n.end0, 0, c1));
  }

  /** In the inner loop. */
  lemma {:induction false} RestInner(code: A.Code, n: Nest, r: nat, m: nat, p: nat, c0: nat, c1: nat)
    requires ResetBehind(n, r) && m > 0 && n.start0 <= p < n.end0 && c0 > 0 && c1 > 0
    ensures Rest(code, n, r, m, p, c0, c1) == O.Body(code, p, n.end0) + MoreInner(code, n, r, m, c0, c1)
    decreases c0, n.end0 - p
  {
    if p + 1 < n.end0 {
      RestInner(code, n, r, m, p + 1, c0, c1);
      InnerOn(code, n, r, m, p, c0, c1, MoreInner(code, n, r, m, c0, c1));
    } else if c0 > 1 {
      RestInner(code, n, r, m, n.start0, c0 - 1, c1);
      AnotherIteration(code, n.start0, n.end0, c0 - 1, Rest(code, n, r, m, n.end0, 0, c1));
      InnerBack(code, n, r, m, c0, c1, MoreInner(code, n, r, m, c0, c1));
    } else {
      InnerDone(code, n, r, m, c1);
    }
  }

  /** Before the inner loop. */
  lemma {:induction false} RestBefore(code: A.Code, n: Nest, r: nat, m: nat, p: nat, c1: nat)
    requires ResetBehind(n, r) && m > 0 && n.start1 <= p <= n.start0 && c1 > 0
    ensures Rest(code, n, r, m, p, m, c1) == O.Body(code, p, n.start0) + Rest(code, n, r, m, n.start0, m, c1)
    decreases n.start0 - p
  {
    if p < n.start0 {
      var more := Rest(code, n, r, m, n.start0, m, c1);
      O.BodyFront(code, p, n.start0);
      O.Regroup([A.At(code, A.Pc(p, false))], O.Body(code, p + 1, n.start0), more);
      RestBefore(code, n, r, m, p + 1, c1);
    }
  }

  lemma AllGrouped(a: seq<A.Insn>, b: seq<A.Insn>, c: seq<A.Insn>, d: seq<A.Insn>, more: seq<A.Insn>)
    ensures a + (b + (c + (d + more))) == ((a + (b + c)) + d) + more
  {
  }

  /** What follows a pass. */
  function MorePasses(code: A.Code, n: Nest, r: nat, m: nat, c1: nat): seq<A.Insn>
    requires ResetBehind(n, r) && m > 0 && c1 > 0
  {
    if c1 > 1 then Rest(code, n, r, m, n.start1, m, c1 - 1) else []
  }

  lemma PassParts(code: A.Code, n: Nest, m: nat)
    requires Nested(n) && m > 0
    ensures Pass(code, n, m)
         == (O.Body(code, n.start1, n.start0) + (O.Body(code, n.start0, n.end0)
                                                 + O.Iterations(code, n.start0, n.end0, m - 1)))
            + O.Body(code, n.end0, n.end1)
  {
  }

  lemma RestIsPass(code: A.Code, n: Nest, r: nat, m: nat, c1: nat)
    requires ResetBehind(n, r) && m > 0 && c1 > 0
    ensures Rest(code, n, r, m, n.start1, m, c1) == Pass(code, n, m) + MorePasses(code, n, r, m, c1)
  {
    RestBefore(code, n, r, m, n.start1, c1);
    RestInner(code, n, r, m, n.start0, m, c1);
    RestBehind(code, n, r, m, n.end0, 0, c1);
    PassParts(code, n, m);
    AllGrouped(O.Body(code, n.start1, n.start0), O.Body(code, n.start0, n.end0),
               O.Iterations(code, n.start0, n.end0, m - 1), O.Body(code, n.end0, n.end1),
               MorePasses(code, n, r, m, c1));
  }

  lemma OnePass(code: A.Code, n: Nest, m: nat)
    requires Nested(n)
    ensures Passes(code, n, m, 1) == Pass(code, n, m) + []
  {
  }

  /** From the outer start that is the outer passes. */
  lemma {:induction false} RestIsPasses(code: A.Code, n: Nest, r: nat, m: nat, c1: nat)
    requires ResetBehind(n, r) && m > 0 && c1 > 0
    ensures Rest(code, n, r, m, n.start1, m, c1) == Passes(code, n, m, c1)
  {
    RestIsPass(code, n, r, m, c1);
    if c1 > 1 { RestIsPasses(code, n, r, m, c1 - 1); } else { OnePass(code, n, m); }
  }

  /** How many instructions that is. */
  lemma {:induction false} IterationsLength(code: A.Code, start: nat, end: nat, m: nat)
    requires start <= end
    ensures |O.Iterations(code, start, end, m)| == Spans(m, end - start)
  {
    if m > 0 {
      IterationsLength(code, start, end, m - 1);
      assert Spans(m, end - start) == Spans(m - 1, end - start) + (end - start);
    }
  }

  lemma {:induction false} PassesLength(code: A.Code, n: Nest, m: nat, count: nat)
    requires Nested(n)
    ensures |Passes(code, n, m, count)|
         == Spans(count, (n.start0 - n.start1) + Spans(m, n.end0 - n.start0) + (n.end1 - n.end0))
  {
    IterationsLength(code, n.start0, n.end0, m);
    var pass := (n.start0 - n.start1) + Spans(m, n.end0 - n.start0) + (n.end1 - n.end0);
    if count > 0 {
      PassesLength(code, n, m, count - 1);
      assert Spans(count, pass) == Spans(count - 1, pass) + pass;
    }
  }

  /** From the outer start, in either state of the controller, the passes are executed. */
  lemma PassesLead(n: Nest, b: L.At, count: nat, r: nat, m: nat, prog: L.Program, code: A.Code, i: nat)
    requires ResetBehind(n, r) && m > 0 && count > 0 && b.pc == A.Pc(n.start1, false) && b.loops == Regs(n, m, count)
    requires O.Uncompressed(code, n.start1, n.end1) && Resets(prog, i, r, m)
    ensures L.LeadsTo(b, prog, code, i, Passes(code, n, m, count), A.Pc(n.end1, false), Regs(n, m, 0))
  {
    RestLeads(n, b, n.start1, m, count, r, m, prog, code, i);
    RestIsPasses(code, n, r, m, count);
  }

  lemma RestLength(code: A.Code, n: Nest, r: nat, m: nat, p: nat, c0: nat, c1: nat, more: nat)
    requires ResetBehind(n, r) && m > 0 && n.start1 <= p < n.end1 && c1 > 0
    requires (p < n.end0 ==> c0 > 0) && (p > r ==> c0 == m)
    requires more == if LastOfAll(n, p, c1) then 0
                     else |Rest(code, n, r, m, NextWord(n, p, c0), NextInner(n, r, m, p, c0), NextOuter(n, p, c1))|
    ensures |Rest(code, n, r, m, p, c0, c1)| == 1 + more
  {
    RestNext(code, n, r, m, p, c0, c1);
  }

  /** In all of them no instruction that goes back meets DECODE. */
  lemma {:induction false} RestNeverBranches(n: Nest, a: L.At, p: nat, c0: nat, c1: nat, r: nat, m: nat,
                                             prog: L.Program, code: A.Code, i: nat)
    requires Within(n, a, p, c0, c1) && ResetBehind(n, r) && m > 0 && (p > r ==> c0 == m)
    requires O.Uncompressed(code, n.start1, n.end1) && Resets(prog, i, r, m)
    ensures Kept(a, L.Stepper(prog, code), O.BranchOk(false), L.From(i), |Rest(code, n, r, m, p, c0, c1)|)
    decreases c1, if p < n.end0 then 1 else 0, if p < n.end0 then c0 else 0, n.end1 - p
  {
    var b, d0, d1 := L.After(a, prog(i, a.pc), code), NextInner(n, r, m, p, c0), NextOuter(n, p, c1);
    var ok := O.BranchOk(false);
    PassStep(n, a, p, c0, c1, r, m, prog(i, a.pc), code);
    NeverBranches(n, a, L.Executes(L.NoWrite()));
    var more := if LastOfAll(n, p, c1) then 0 else |Rest(code, n, r, m, NextWord(n, p, c0), d0, d1)|;
    RestLength(code, n, r, m, p, c0, c1, more);
    if !LastOfAll(n, p, c1) { RestNeverBranches(n, b, NextWord(n, p, c0), d0, d1, r, m, prog, code, i + 1); }
    L.KeptBefore(a, prog, code, ok, i, b, more);
  }

  // ----------------------------------------------------------------- behind the nest

  /** For t instructions the code from the outer end stays behind it. */
  predicate StaysBehind(n: Nest, code: A.Code, t: nat) {
    A.WalkPc(code, A.Pc(n.end1, false), t).index >= n.end1 && (t > 0 ==> StaysBehind(n, code, t - 1))
  }

  lemma {:induction false} BehindAt(n: Nest, code: A.Code, t: nat, u: nat)
    requires StaysBehind(n, code, t) && u <= t
    ensures A.WalkPc(code, A.Pc(n.end1, false), u).index >= n.end1
    decreases t
  {
    if u < t { BehindAt(n, code, t - 1, u); }
  }

  lemma BehindStep(n: Nest, a: L.At, m: nat, act: L.Action, code: A.Code)
    requires Nested(n) && a.loops == Regs(n, m, 0) && act == L.Executes(L.NoWrite())
    requires a.pc.index >= n.end1 && A.After(code, a.pc).index >= n.end1
    ensures L.CalmAt(a, act, code)
    ensures L.After(a, act, code).loops == a.loops && L.After(a, act, code).pc == A.After(code, a.pc)
  {
    L.ClearStep(a, code);
  }

  function Behind(n: Nest, m: nat, pcs: nat -> A.Pc): (nat, L.At) -> bool {
    (u: nat, x: L.At) => x.loops == Regs(n, m, 0) && x.pc == pcs(u)
  }

  /** A step behind the nest. */
  predicate StillBehind(n: Nest, code: A.Code, pcs: nat -> A.Pc, u: nat) {
    pcs(u).index >= n.end1 && pcs(u + 1).index >= n.end1 && pcs(u + 1) == A.After(code, pcs(u))
  }

  lemma BehindNext(n: Nest, code: A.Code, t: nat, u: nat)
    requires StaysBehind(n, code, t) && u < t
    ensures StillBehind(n, code, O.WalkOf(code, A.Pc(n.end1, false)), u)
  {
    BehindAt(n, code, t, u);
    BehindAt(n, code, t, u + 1);
  }

  lemma BehindMoves(n: Nest, m: nat, prog: L.Program, code: A.Code, pcs: nat -> A.Pc, u: nat, x: L.At, k: nat)
    requires Nested(n) && Behind(n, m, pcs)(u, x) && prog(k, x.pc) == L.Executes(L.NoWrite())
    requires StillBehind(n, code, pcs, u)
    ensures L.CalmOk(prog, code)(x, k) && Behind(n, m, pcs)(u + 1, L.Stepper(prog, code)(x, k))
  {
    BehindStep(n, x, m, prog(k, x.pc), code);
  }

  lemma BehindIsCalm(n: Nest, c: L.At, r: nat, m: nat, prog: L.Program, code: A.Code, i: nat, pcs: nat -> A.Pc, t: nat)
    requires ResetBehind(n, r) && c.loops == Regs(n, m, 0) && c.pc == pcs(0) && Resets(prog, i, r, m)
    requires forall u: nat :: u < t ==> StillBehind(n, code, pcs, u)
    ensures L.CalmFor(c, prog, code, i, t) && Behind(n, m, pcs)(t, L.Steps(c, prog, code, i, t))
  {
    var inv, step, ok, env := Behind(n, m, pcs), L.Stepper(prog, code), L.CalmOk(prog, code), L.From(i);
    assert inv(0, c);
    forall u: nat, x: L.At | u < t && inv(u, x) ensures ok(x, env(u)) && inv(u + 1, step(x, env(u))) {
      assert StillBehind(n, code, pcs, u);
      BehindMoves(n, m, prog, code, pcs, u, x, env(u));
    }
    KeptBy(inv, c, step, ok, env, t, t);
  }

  lemma BehindKept(n: Nest, c: L.At, r: nat, m: nat, prog: L.Program, code: A.Code, i: nat, t: nat)
    requires ResetBehind(n, r) && c.loops == Regs(n, m, 0) && c.pc == A.Pc(n.end1, false) && Resets(prog, i, r, m)
    requires StaysBehind(n, code, t)
    ensures L.CalmFor(c, prog, code, i, t) && L.Steps(c, prog, code, i, t).loops == Regs(n, m, 0)
  {
    var pcs := O.WalkOf(code, A.Pc(n.end1, false));
    forall u: nat | u < t ensures StillBehind(n, code, pcs, u) { BehindNext(n, code, t, u); }
    BehindIsCalm(n, c, r, m, prog, code, i, pcs, t);
  }

  /** The code from the outer end, with the inner counter set for the next time. */
  lemma BehindLeads(n: Nest, c: L.At, r: nat, m: nat, prog: L.Program, code: A.Code, i: nat, t: nat)
    requires ResetBehind(n, r) && c.loops == Regs(n, m, 0) && c.pc == A.Pc(n.end1, false) && Resets(prog, i, r, m)
    requires StaysBehind(n, code, t)
    ensures L.LeadsTo(c, prog, code, i, A.Walk(code, A.Pc(n.end1, false), t), A.WalkPc(code, A.Pc(n.end1, false), t),
                      Regs(n, m, 0))
  {
    BehindKept(n, c, r, m, prog, code, i, t);
    L.CalmWalk(c, prog, code, i, t);
  }

  // ------------------------------------------------------------------- the whole order

  /** After j plain instructions, of either length and whatever loop registers they write,
      the nest begins with inner counter m and outer counter `count`. */
  ghost predicate Ready(n: Nest, r: nat, m: nat, count: nat, a: L.At, prog: L.Program, code: A.Code, j: nat) {
    && ResetBehind(n, r) && m > 0 && count > 0
    && L.CalmFor(a, prog, code, 0, j) && Resets(prog, j, r, m) && O.Uncompressed(code, n.start1, n.end1)
    && var b := O.Start(a, prog, code, j); b.pc == A.Pc(n.start1, false) && b.loops == Regs(n, m, count)
  }

  function Whole(n: Nest, m: nat, count: nat, pc: A.Pc, code: A.Code, j: nat): seq<A.Insn>
    requires Nested(n)
  {
    A.Walk(code, pc, j) + Passes(code, n, m, count)
  }

  lemma WholeLeads(n: Nest, r: nat, m: nat, count: nat, a: L.At, prog: L.Program, code: A.Code, j: nat)
    requires Ready(n, r, m, count, a, prog, code, j)
    ensures L.LeadsTo(a, prog, code, 0, Whole(n, m, count, a.pc, code, j), A.Pc(n.end1, false), Regs(n, m, 0))
  {
    L.CalmLeads(a, prog, code, 0, j);
    PassesLead(n, O.Start(a, prog, code, j), count, r, m, prog, code, j);
    L.JoinPlaces(a, prog, code, 0, A.Walk(code, a.pc, j), A.Pc(n.start1, false), Regs(n, m, count), j, j,
                 Passes(code, n, m, count), A.Pc(n.end1, false), Regs(n, m, 0));
  }

  lemma PassesNeverBranch(n: Nest, r: nat, m: nat, count: nat, b: L.At, prog: L.Program, code: A.Code, i: nat, t: nat)
    requires ResetBehind(n, r) && m > 0 && count > 0 && b.pc == A.Pc(n.start1, false) && b.loops == Regs(n, m, count)
    requires O.Uncompressed(code, n.start1, n.end1) && Resets(prog, i, r, m) && t < |Passes(code, n, m, count)|
    ensures !S.Branching(L.Steps(b, prog, code, i, t), L.Executes(L.NoWrite()))
  {
    RestIsPasses(code, n, r, m, count);
    RestNeverBranches(n, b, n.start1, m, count, r, m, prog, code, i);
    KeptAt(b, L.Stepper(prog, code), O.BranchOk(false), L.From(i), |Passes(code, n, m, count)|, t);
  }

  /** Up to the end of the last pass no instruction branches back. */
  lemma WholeNeverBranches(n: Nest, r: nat, m: nat, count: nat, a: L.At, prog: L.Program, code: A.Code, j: nat, k: nat)
    requires Ready(n, r, m, count, a, prog, code, j) && S.JumpFree(prog) && k < |Whole(n, m, count, a.pc, code, j)|
    ensures !S.BranchesAt(a, prog, code, k)
  {
    if k < j {
      S.CalmNeverBranches(a, prog, code, j, k);
    } else {
      var t: nat := k - j;
      L.StepsSplit(a, prog, code, 0, j, j, t);
      PassesNeverBranch(n, r, m, count, O.Start(a, prog, code, j), prog, code, j, t);
    }
  }

  /** And t instructions more. */
  function Beyond(n: Nest, m: nat, count: nat, pc: A.Pc, code: A.Code, j: nat, t: nat): (s: seq<A.Insn>)
    requires Nested(n)
    ensures |s| == |Whole(n, m, count, pc, code, j)| + t
  {
    Whole(n, m, count, pc, code, j) + A.Walk(code, A.Pc(n.end1, false), t)
  }

  lemma BeyondLeads(n: Nest, r: nat, m: nat, count: nat, a: L.At, prog: L.Program, code: A.Code, j: nat, t: nat)
    requires Ready(n, r, m, count, a, prog, code, j) && StaysBehind(n, code, t)
    ensures var end := A.Pc(n.end1, false);
      L.LeadsTo(a, prog, code, 0, Beyond(n, m, count, a.pc, code, j, t), A.WalkPc(code, end, t), Regs(n, m, 0))
  {
    var whole, end := Whole(n, m, count, a.pc, code, j), A.Pc(n.end1, false);
    WholeLeads(n, r, m, count, a, prog, code, j);
    BehindLeads(n, L.Steps(a, prog, code, 0, |whole|), r, m, prog, code, |whole|, t);
    L.JoinPlaces(a, prog, code, 0, whole, end, Regs(n, m, 0), |whole|, |whole|, A.Walk(code, end, t),
                 A.WalkPc(code, end, t), Regs(n, m, 0));
  }

  /** Part of the code up to the outer loop and its passes, or all of that and then, as far
      as it stays behind the nest, the code from the outer end; from there on the outer
      counter is 0 and the inner one set for the next time. */
  predicate PassedOn(done: seq<A.Insn>, l: H.Pair, n: Nest, m: nat, count: nat, pc: A.Pc, code: A.Code, j: nat)
    requires Nested(n)
  {
    var whole := Whole(n, m, count, pc, code, j);
    if |done| < |whole| then done <= whole
    else whole <= done
         && (StaysBehind(n, code, |done| - |whole|) ==>
               done == whole + A.Walk(code, A.Pc(n.end1, false), |done| - |whole|) && l == Regs(n, m, 0))
  }

  lemma PassedWithin(done: seq<A.Insn>, l: H.Pair, n: Nest, r: nat, m: nat, count: nat, a: L.At, prog: L.Program,
                     code: A.Code, j: nat, u: nat)
    requires Ready(n, r, m, count, a, prog, code, j) && S.Agrees(done, l, a, prog, code, u) && |done| <= u
    requires |done| < |Whole(n, m, count, a.pc, code, j)|
    ensures PassedOn(done, l, n, m, count, a.pc, code, j)
  {
    var whole := Whole(n, m, count, a.pc, code, j);
    WholeLeads(n, r, m, count, a, prog, code, j);
    L.LeadsFirst(a, prog, code, 0, whole, L.Steps(a, prog, code, 0, |whole|), |done|);
  }

  lemma PassedAll(done: seq<A.Insn>, l: H.Pair, n: Nest, r: nat, m: nat, count: nat, a: L.At, prog: L.Program,
                  code: A.Code, j: nat)
    requires Ready(n, r, m, count, a, prog, code, j)
    requires var u := |Whole(n, m, count, a.pc, code, j)|;
      |done| >= u && S.Agrees(done, l, a, prog, code, u) && !StaysBehind(n, code, |done| - u)
    ensures PassedOn(done, l, n, m, count, a.pc, code, j)
  {
    WholeLeads(n, r, m, count, a, prog, code, j);
  }

  lemma BehindAgrees(done: seq<A.Insn>, l: H.Pair, n: Nest, r: nat, m: nat, count: nat, a: L.At, prog: L.Program,
                     code: A.Code, j: nat, t: nat)
    requires Ready(n, r, m, count, a, prog, code, j) && StaysBehind(n, code, t)
    requires |done| == |Whole(n, m, count, a.pc, code, j)| + t && S.Agrees(done, l, a, prog, code, |done|)
    ensures PassedOn(done, l, n, m, count, a.pc, code, j)
  {
    var end := A.Pc(n.end1, false);
    BeyondLeads(n, r, m, count, a, prog, code, j, t);
    L.LeadsMeans(a, prog, code, 0, Beyond(n, m, count, a.pc, code, j, t), A.WalkPc(code, end, t), Regs(n, m, 0),
                 |done|);
  }

  lemma SoundUpTo(n: Nest, r: nat, m: nat, count: nat, a: L.At, prog: L.Program, code: A.Code, j: nat, t: nat, u: nat)
    requires Ready(n, r, m, count, a, prog, code, j) && StaysBehind(n, code, t)
    requires u == |Whole(n, m, count, a.pc, code, j)| + t
    ensures L.SoundFor(a, prog, code, 0, u)
  {
    var all, end := Beyond(n, m, count, a.pc, code, j, t), A.Pc(n.end1, false);
    BeyondLeads(n, r, m, count, a, prog, code, j, t);
    L.LeadsMeans(a, prog, code, 0, all, A.WalkPc(code, end, t), Regs(n, m, 0), u);
  }

  lemma NothingBehind(n: Nest, code: A.Code)
    ensures StaysBehind(n, code, 0)
  {
  }

  // ------------------------------------------------------------------- in the hardware

  /** How far the run has to agree with the order. */
  function Enough(n: Nest, m: nat, count: nat, pc: A.Pc, code: A.Code, j: nat, done: nat): nat
    requires Nested(n)
  {
    var whole := |Whole(n, m, count, pc, code, j)|;
    if done > whole && StaysBehind(n, code, done - whole) then done else whole
  }

  lemma EnoughIsSound(n: Nest, r: nat, m: nat, count: nat, a: L.At, prog: L.Program, code: A.Code, j: nat, done: nat)
    requires Ready(n, r, m, count, a, prog, code, j)
    ensures L.SoundFor(a, prog, code, 0, Enough(n, m, count, a.pc, code, j, done))
  {
    var whole := |Whole(n, m, count, a.pc, code, j)|;
    NothingBehind(n, code);
    SoundUpTo(n, r, m, count, a, prog, code, j,
              if done > whole && StaysBehind(n, code, done - whole) then done - whole else 0,
              Enough(n, m, count, a.pc, code, j, done));
  }

  lemma EnoughBehind(done: seq<A.Insn>, l: H.Pair, n: Nest, r: nat, m: nat, count: nat, a: L.At, prog: L.Program,
                     code: A.Code, j: nat, u: nat, t: nat)
    requires Ready(n, r, m, count, a, prog, code, j) && u == |Whole(n, m, count, a.pc, code, j)| && |done| == u + t
    requires S.Agrees(done, l, a, prog, code, if t > 0 && StaysBehind(n, code, t) then |done| else u)
    ensures PassedOn(done, l, n, m, count, a.pc, code, j)
  {
    NothingBehind(n, code);
    if StaysBehind(n, code, t) {
      BehindAgrees(done, l, n, r, m, count, a, prog, code, j, t);
    } else {
      PassedAll(done, l, n, r, m, count, a, prog, code, j);
    }
  }

  lemma EnoughPasses(done: seq<A.Insn>, l: H.Pair, n: Nest, r: nat, m: nat, count: nat, a: L.At, prog: L.Program,
                     code: A.Code, j: nat, enough: nat)
    requires Ready(n, r, m, count, a, prog, code, j) && S.Agrees(done, l, a, prog, code, enough)
    requires enough == Enough(n, m, count, a.pc, code, j, |done|)
    ensures PassedOn(done, l, n, m, count, a.pc, code, j)
  {
    var u := |Whole(n, m, count, a.pc, code, j)|;
    if |done| < u {
      PassedWithin(done, l, n, r, m, count, a, prog, code, j, enough);
    } else {
      var t: nat := |done| - u;
      assert enough == if t > 0 && StaysBehind(n, code, t) then |done| else u;
      EnoughBehind(done, l, n, r, m, count, a, prog, code, j, u, t);
    }
  }

  /** The documentation's example: whatever instructions set both loops up and in which
      order, with code of both lengths outside the nest, in either state of the controller,
      ID empty or not, the inner counter set to m again behind the inner loop: what leaves
      ID is the code up to the outer loop, `count` outer passes of m inner iterations each,
      and the code behind, under every pattern of stalls and fetch gaps. */
  lemma NestRunsExactly(s: S.Sys, env: nat -> S.Env, n: Nest, r: nat, m: nat, count: nat, a: L.At, prog: L.Program,
                        code: A.Code, j: nat, k: nat)
    requires S.Entering(s, a, code) && Ready(n, r, m, count, a, prog, code, j)
    ensures var t := Run(s, S.Stepper(code, prog), env, k); PassedOn(t.retired, t.loops, n, m, count, a.pc, code, j)
  {
    var t := Run(s, S.Stepper(code, prog), env, k);
    EnoughIsSound(n, r, m, count, a, prog, code, j, |t.retired|);
    S.RunsInOrder(s, env, a, prog, code, Enough(n, m, count, a.pc, code, j, |t.retired|), k);
    EnoughPasses(t.retired, t.loops, n, r, m, count, a, prog, code, j,
                 Enough(n, m, count, a.pc, code, j, |t.retired|));
  }
}
