/** The order in which a program with hardware loops is to be executed: what each
    instruction does to pc and to the registers of both loops, and when the controller can
    follow it. */
module LoopOrder {
  import A = Aligner
  import H = HwLoop
  import opened Runs

  type LoopWrite = w: H.Write | w.regid < 2 witness H.Write(false, false, false, 0, 0, 0, 0)

  /** What an instruction does: a plain one, which may write loop registers, or a jump. */
  datatype Action = Executes(write: LoopWrite) | JumpsTo(target: A.Pc)

  /** The action of the k-th instruction, at pc. */
  type Program = (nat, A.Pc) -> Action

  function NoWrite(): LoopWrite { H.Write(false, false, false, 0, 0, 0, 0) }

  function WriteOf(act: Action): LoopWrite { if act.Executes? then act.write else NoWrite() }

  function FlowOf(act: Action): H.Flow { if act.JumpsTo? then H.Jump(act.target) else H.Plain }

  // ------------------------------------------------------------- the promised order

  /** The instruction at pc is the last of an iteration of loop i. */
  predicate Last(l: H.Pair, i: nat, pc: A.Pc)
    requires i < 2
  {
    H.EndEqPc(l.end[i], pc) && l.count[i] != 0
  }

  /** And not of the last iteration. */
  predicate Again(l: H.Pair, i: nat, pc: A.Pc)
    requires i < 2
  {
    H.EndEqPc(l.end[i], pc) && l.count[i] > 1
  }

  predicate GoesBack(l: H.Pair, pc: A.Pc) { Again(l, 0, pc) || Again(l, 1, pc) }

  /** Loop 0 has priority. */
  function BackTo(l: H.Pair, pc: A.Pc): nat { if Again(l, 0, pc) then l.start[0] else l.start[1] }

  function NextPc(l: H.Pair, pc: A.Pc, act: Action, code: A.Code): A.Pc {
    match act
    case JumpsTo(target) => target
    case Executes(_) => if GoesBack(l, pc) then A.Pc(BackTo(l, pc), false) else A.After(code, pc)
  }

  /** The last instruction of an iteration counts down; what is written prevails. */
  function NextLoops(l: H.Pair, pc: A.Pc, act: Action): H.Pair {
    match act
    case JumpsTo(_) => l
    case Executes(w) => H.NextLoops(l, w, [Last(l, 0, pc), Last(l, 1, pc)], true)
  }

  /** Where execution stands: the next instruction, the loop registers, and, which does not
      matter for the order, the state in which the controller meets it. */
  datatype At = At(pc: A.Pc, loops: H.Pair, fsm: H.Fsm)

  /** The controller's outputs in its first cycle with this instruction. */
  function Out(a: At, act: Action): H.Out { H.Control(H.Ctrl(a.fsm, false, false), a.loops, true, a.pc, FlowOf(act)) }

  function After(a: At, act: Action, code: A.Code): At {
    At(NextPc(a.loops, a.pc, act, code), NextLoops(a.loops, a.pc, act), Out(a, act).next)
  }

  function Stepper(prog: Program, code: A.Code): (At, nat) -> At {
    (a: At, k: nat) => After(a, prog(k, a.pc), code)
  }

  /** Counting from i. */
  function From(i: nat): nat -> nat { (t: nat) => i + t }

  /** After k instructions, the first being the i-th of the program. */
  function Steps(a: At, prog: Program, code: A.Code, i: nat, k: nat): At { Run(a, Stepper(prog, code), From(i), k) }

  function Executed(code: A.Code): At -> A.Insn { (a: At) => A.At(code, a.pc) }

  /** The first k instructions. */
  function Trace(a: At, prog: Program, code: A.Code, i: nat, k: nat): (s: seq<A.Insn>)
    ensures |s| == k
  {
    Seen(a, Stepper(prog, code), From(i), Executed(code), k)
  }

  lemma NextStep(a: At, prog: Program, code: A.Code, i: nat, k: nat)
    ensures var b := Steps(a, prog, code, i, k);
      && Steps(a, prog, code, i, k + 1) == After(b, prog(i + k, b.pc), code)
      && Trace(a, prog, code, i, k + 1) == Trace(a, prog, code, i, k) + [A.At(code, b.pc)]
  {
  }

  lemma StepsSplit(a: At, prog: Program, code: A.Code, i: nat, j: nat, later: nat, k: nat)
    requires later == i + j
    ensures Steps(a, prog, code, i, j + k) == Steps(Steps(a, prog, code, i, j), prog, code, later, k)
  {
    Split(a, Stepper(prog, code), From(i), From(later), j, k);
  }

  lemma TraceSplit(a: At, prog: Program, code: A.Code, i: nat, j: nat, k: nat)
    ensures Steps(a, prog, code, i, j + k) == Steps(Steps(a, prog, code, i, j), prog, code, i + j, k)
    ensures Trace(a, prog, code, i, j + k)
         == Trace(a, prog, code, i, j) + Trace(Steps(a, prog, code, i, j), prog, code, i + j, k)
  {
    Split(a, Stepper(prog, code), From(i), From(i + j), j, k);
    SeenSplit(a, Stepper(prog, code), From(i), From(i + j), Executed(code), j, k);
  }

  /** Where two orders stand differs at most in the controller's state. */
  predicate SamePlace(a: At, b: At) { a.pc == b.pc && a.loops == b.loops }

  lemma SamePlaceNext(a: At, b: At, act: Action, code: A.Code)
    requires SamePlace(a, b)
    ensures SamePlace(After(a, act, code), After(b, act, code))
  {
  }

  /** The order is the same whatever state the controller is in. */
  lemma {:induction false} OrderIgnoresState(a: At, b: At, prog: Program, code: A.Code, i: nat, k: nat)
    requires SamePlace(a, b)
    ensures Trace(a, prog, code, i, k) == Trace(b, prog, code, i, k)
    ensures SamePlace(Steps(a, prog, code, i, k), Steps(b, prog, code, i, k))
  {
    if k > 0 {
      OrderIgnoresState(a, b, prog, code, i, k - 1);
      NextStep(a, prog, code, i, k - 1);
      NextStep(b, prog, code, i, k - 1);
      var c, d := Steps(a, prog, code, i, k - 1), Steps(b, prog, code, i, k - 1);
      SamePlaceNext(c, d, prog(i + (k - 1), c.pc), code);
    }
  }

  // ------------------------------------------------- what the controller can follow

  /** The instruction's jump back is announced in the cycles before, exactly if it goes
      back, and by the instruction right before it, both uncompressed. */
  predicate Announced(a: At, b: At, o: H.Out, code: A.Code) {
    && (o.end4 ==> !GoesBack(a.loops, a.pc) && GoesBack(b.loops, b.pc) && b.fsm == H.DecodeHwloop
                   && o.target == A.Pc(BackTo(b.loops, b.pc), false)
                   && A.IsLong(code(a.pc)) && A.IsLong(code(b.pc)))
    && (GoesBack(b.loops, b.pc) && b.fsm == H.DecodeHwloop ==> o.end4)
  }

  /** The conditions under which the controller executes this step as promised: a jump meets
      DECODE, a jump back from DECODE finds the right body, one from DECODE_HWLOOP has been
      announced. */
  predicate Sound(a: At, act: Action, code: A.Code) {
    var o := Out(a, act);
    && (act.JumpsTo? ==> a.fsm == H.Decode && !Last(a.loops, 0, a.pc) && !Last(a.loops, 1, a.pc))
    && (act.Executes? && GoesBack(a.loops, a.pc) ==>
          && o.next == H.DecodeHwloop
          && (a.fsm == H.Decode ==> o.pcSet && o.target == A.Pc(BackTo(a.loops, a.pc), false)))
    && Announced(a, After(a, act, code), o, code)
  }

  function Ok(prog: Program, code: A.Code): (At, nat) -> bool { (a: At, k: nat) => Sound(a, prog(k, a.pc), code) }

  /** The first m steps are sound. */
  predicate SoundFor(a: At, prog: Program, code: A.Code, i: nat, m: nat) {
    Kept(a, Stepper(prog, code), Ok(prog, code), From(i), m)
  }

  lemma SoundSplit(a: At, prog: Program, code: A.Code, i: nat, j: nat, m: nat)
    requires SoundFor(a, prog, code, i, j) && SoundFor(Steps(a, prog, code, i, j), prog, code, i + j, m)
    ensures SoundFor(a, prog, code, i, j + m)
  {
    KeptSplit(a, Stepper(prog, code), Ok(prog, code), From(i), From(i + j), j, m);
  }

  // ------------------------------------------------------------------ plain stretches

  /** No iteration that is not the last is about to end. */
  predicate Calm(l: H.Pair, pc: A.Pc) {
    forall i :: 0 <= i < 2 ==> l.count[i] > 1 ==> !H.EndEqPc(l.end[i], pc) && !H.EndEqPcPlus4(l.end[i], pc)
  }

  /** No iteration ends. */
  predicate Clear(l: H.Pair, pc: A.Pc) {
    Calm(l, pc) && forall i :: 0 <= i < 2 ==> l.count[i] > 0 ==> !H.EndEqPc(l.end[i], pc)
  }

  /** A plain instruction, whatever it writes, neither it nor the next near the end of an
      iteration. */
  predicate CalmAt(a: At, act: Action, code: A.Code) {
    act.Executes? && Calm(a.loops, a.pc) && Calm(NextLoops(a.loops, a.pc, act), NextPc(a.loops, a.pc, act, code))
  }

  lemma CalmStep(a: At, act: Action, code: A.Code)
    requires CalmAt(a, act, code)
    ensures Sound(a, act, code) && After(a, act, code).pc == A.After(code, a.pc)
  {
    assert forall i :: 0 <= i < 2 ==> !Again(a.loops, i, a.pc);
    var b := After(a, act, code);
    assert forall i :: 0 <= i < 2 ==> !Again(b.loops, i, b.pc);
  }

  function CalmOk(prog: Program, code: A.Code): (At, nat) -> bool {
    (a: At, k: nat) => CalmAt(a, prog(k, a.pc), code)
  }

  lemma CalmHere(a: At, k: nat, prog: Program, code: A.Code)
    requires CalmOk(prog, code)(a, k)
    ensures !GoesBack(a.loops, a.pc) && prog(k, a.pc).Executes?
  {
    assert CalmAt(a, prog(k, a.pc), code);
    assert forall i :: 0 <= i < 2 ==> !Again(a.loops, i, a.pc);
  }

  /** k such instructions. */
  predicate CalmFor(a: At, prog: Program, code: A.Code, i: nat, k: nat) {
    Kept(a, Stepper(prog, code), CalmOk(prog, code), From(i), k)
  }

  /** A run that goes through code as the aligner's walk does. */
  lemma {:induction false} Walks<S(!new), E(!new)>(s: S, step: (S, E) -> S, ok: (S, E) -> bool, env: nat -> E,
                                                   pc: S -> A.Pc, see: S -> A.Insn, code: A.Code, k: nat)
    requires Kept(s, step, ok, env, k)
    requires forall x, e {:trigger step(x, e)} :: ok(x, e) ==> pc(step(x, e)) == A.After(code, pc(x))
    requires forall x :: see(x) == A.At(code, pc(x))
    ensures pc(Run(s, step, env, k)) == A.WalkPc(code, pc(s), k)
    ensures Seen(s, step, env, see, k) == A.Walk(code, pc(s), k)
  {
    if k > 0 { Walks(s, step, ok, env, pc, see, code, k - 1); }
  }

  function PcOf(): At -> A.Pc { (a: At) => a.pc }

  /** They are the code's instructions one after the other, and the controller can follow
      them, in whichever state it is. */
  lemma CalmWalk(a: At, prog: Program, code: A.Code, i: nat, k: nat)
    requires CalmFor(a, prog, code, i, k)
    ensures SoundFor(a, prog, code, i, k)
    ensures Trace(a, prog, code, i, k) == A.Walk(code, a.pc, k)
    ensures Steps(a, prog, code, i, k).pc == A.WalkPc(code, a.pc, k)
  {
    var step, calm := Stepper(prog, code), CalmOk(prog, code);
    forall x: At, n: nat | calm(x, n) ensures Ok(prog, code)(x, n) && PcOf()(step(x, n)) == A.After(code, PcOf()(x)) {
      CalmStep(x, prog(n, x.pc), code);
    }
    KeptWeaker(a, step, calm, Ok(prog, code), From(i), k);
    Walks(a, step, calm, From(i), PcOf(), Executed(code), code, k);
  }

  lemma ClearStep(a: At, code: A.Code)
    requires Clear(a.loops, a.pc)
    ensures var b := After(a, Executes(NoWrite()), code); b.pc == A.After(code, a.pc) && b.loops == a.loops
  {
    assert forall i :: 0 <= i < 2 ==> !Again(a.loops, i, a.pc) && !Last(a.loops, i, a.pc);
    assert NextLoops(a.loops, a.pc, Executes(NoWrite())).count == a.loops.count;
  }

  // -------------------------------------------------------------------- joining stretches

  /** From a, exactly these instructions are executed, the controller can follow them, and
      b is reached. */
  predicate Leads(a: At, prog: Program, code: A.Code, i: nat, insns: seq<A.Insn>, b: At) {
    Runs.Leads(a, Stepper(prog, code), Ok(prog, code), From(i), Executed(code), insns, b)
  }

  lemma Join(a: At, prog: Program, code: A.Code, i: nat, first: seq<A.Insn>, b: At, second: seq<A.Insn>, c: At)
    requires Leads(a, prog, code, i, first, b) && Leads(b, prog, code, i + |first|, second, c)
    ensures Leads(a, prog, code, i, first + second, c)
  {
    Runs.Join(a, Stepper(prog, code), Ok(prog, code), From(i), From(i + |first|), Executed(code), first, b, second, c);
  }

  /** The first k of any number of instructions. */
  lemma LeadsFirst(a: At, prog: Program, code: A.Code, i: nat, insns: seq<A.Insn>, b: At, k: nat)
    requires Leads(a, prog, code, i, insns, b) && k <= |insns|
    ensures Trace(a, prog, code, i, k) == insns[..k]
  {
    TraceSplit(a, prog, code, i, k, |insns| - k);
  }

  /** The same without saying in which state the controller gets there. */
  predicate LeadsTo(a: At, prog: Program, code: A.Code, i: nat, insns: seq<A.Insn>, pc: A.Pc, l: H.Pair) {
    var b := Steps(a, prog, code, i, |insns|);
    Leads(a, prog, code, i, insns, b) && b.pc == pc && b.loops == l
  }

  lemma LeadsMeans(a: At, prog: Program, code: A.Code, i: nat, insns: seq<A.Insn>, pc: A.Pc, l: H.Pair, r: nat)
    requires LeadsTo(a, prog, code, i, insns, pc, l) && r == |insns|
    ensures SoundFor(a, prog, code, i, r) && Trace(a, prog, code, i, r) == insns
    ensures var b := Steps(a, prog, code, i, r); b.pc == pc && b.loops == l
  {
  }

  lemma JoinTo(a: At, prog: Program, code: A.Code, i: nat, first: seq<A.Insn>, b: At, second: seq<A.Insn>,
               pc: A.Pc, l: H.Pair)
    requires Leads(a, prog, code, i, first, b) && LeadsTo(b, prog, code, i + |first|, second, pc, l)
    ensures LeadsTo(a, prog, code, i, first + second, pc, l)
  {
    Join(a, prog, code, i, first, b, second, Steps(b, prog, code, i + |first|, |second|));
  }

  /** A place reached instead of the state the controller reaches it in. */
  lemma JoinPlaces(a: At, prog: Program, code: A.Code, i: nat, first: seq<A.Insn>, pc1: A.Pc, l1: H.Pair,
                   n: nat, later: nat, second: seq<A.Insn>, pc2: A.Pc, l2: H.Pair)
    requires LeadsTo(a, prog, code, i, first, pc1, l1) && n == |first| && later == i + n
    requires LeadsTo(Steps(a, prog, code, i, n), prog, code, later, second, pc2, l2)
    ensures LeadsTo(a, prog, code, i, first + second, pc2, l2)
  {
    JoinTo(a, prog, code, i, first, Steps(a, prog, code, i, |first|), second, pc2, l2);
  }

  lemma OneStep(a: At, prog: Program, code: A.Code, i: nat)
    requires Sound(a, prog(i, a.pc), code)
    ensures Leads(a, prog, code, i, [A.At(code, a.pc)], After(a, prog(i, a.pc), code))
  {
    var step, ok, env := Stepper(prog, code), Ok(prog, code), From(i);
    assert Run(a, step, env, 0) == a && Seen(a, step, env, Executed(code), 0) == [] && Kept(a, step, ok, env, 0);
    assert env(0) == i;
  }

  /** One step put before. */
  lemma StepBefore(a: At, prog: Program, code: A.Code, i: nat, b: At, rest: seq<A.Insn>, pc: A.Pc, l: H.Pair)
    requires Sound(a, prog(i, a.pc), code) && b == After(a, prog(i, a.pc), code)
    requires LeadsTo(b, prog, code, i + 1, rest, pc, l)
    ensures LeadsTo(a, prog, code, i, [A.At(code, a.pc)] + rest, pc, l)
  {
    OneStep(a, prog, code, i);
    JoinTo(a, prog, code, i, [A.At(code, a.pc)], b, rest, pc, l);
  }

  function LeftOk(k: nat): (At, nat) -> bool
    requires k < 2
  {
    (a: At, n: nat) => a.loops.count[k] > 0
  }

  /** For m steps iterations of loop k are left. */
  predicate LeftFor(a: At, k: nat, prog: Program, code: A.Code, i: nat, m: nat)
    requires k < 2
  {
    Kept(a, Stepper(prog, code), LeftOk(k), From(i), m)
  }

  lemma KeptBefore(a: At, prog: Program, code: A.Code, ok: (At, nat) -> bool, i: nat, b: At, m: nat)
    requires ok(a, i) && b == After(a, prog(i, a.pc), code) && Kept(b, Stepper(prog, code), ok, From(i + 1), m)
    ensures Kept(a, Stepper(prog, code), ok, From(i), 1 + m)
  {
    var step, env := Stepper(prog, code), From(i);
    assert Run(a, step, env, 0) == a && Kept(a, step, ok, env, 0) && env(0) == i;
    assert Run(a, step, env, 1) == b && Kept(a, step, ok, env, 1);
    KeptSplit(a, step, ok, env, From(i + 1), 1, m);
  }

  /** From i on the program writes nothing and does not jump. */
  ghost predicate Plainly(prog: Program, i: nat) {
    forall k: nat, pc :: k >= i ==> prog(k, pc) == Executes(NoWrite())
  }

  predicate Idle(l: H.Pair) { l.count[0] == 0 && l.count[1] == 0 }

  lemma IdleStep(a: At, act: Action, code: A.Code)
    requires Idle(a.loops) && act == Executes(NoWrite())
    ensures CalmAt(a, act, code) && After(a, act, code).loops == a.loops
  {
    ClearStep(a, code);
  }

  lemma CalmLeads(a: At, prog: Program, code: A.Code, i: nat, k: nat)
    requires CalmFor(a, prog, code, i, k)
    ensures var b := Steps(a, prog, code, i, k); LeadsTo(a, prog, code, i, A.Walk(code, a.pc, k), b.pc, b.loops)
  {
    CalmWalk(a, prog, code, i, k);
  }

  /** With both counters 0 plain code goes straight on. */
  lemma IdleWalk(a: At, prog: Program, code: A.Code, i: nat, k: nat, pc: A.Pc, l: H.Pair)
    requires Idle(l) && Plainly(prog, i) && a.pc == pc && a.loops == l
    ensures LeadsTo(a, prog, code, i, A.Walk(code, pc, k), A.WalkPc(code, pc, k), l)
  {
    var inv, step, ok, env := (t: nat, x: At) => x.loops == a.loops, Stepper(prog, code), CalmOk(prog, code), From(i);
    forall t: nat, x: At | inv(t, x) ensures ok(x, env(t)) && inv(t + 1, step(x, env(t))) {
      IdleStep(x, prog(env(t), x.pc), code);
    }
    KeptBy(inv, a, step, ok, env, k, k);
    CalmWalk(a, prog, code, i, k);
  }
}
