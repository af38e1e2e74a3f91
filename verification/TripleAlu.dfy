/** The triplicated ALU: three replicas on shared inputs, word-level majority voters on
    their outputs, and the loop from the voted ready back into every replica through EX. */
module TripleAlu {
  import opened Bits
  import D = Divider
  import A = AluDivision

  // ------------------------------------------------------------------- the voter

  /** voter.sv, branch by branch. */
  function Vote<T(==)>(in1: T, in2: T, in3: T): (T, bool) {
    if in1 == in2 || in2 == in3 || in1 == in3 then
      if in1 == in2 && in2 != in3 then (in1, true)
      else if in2 == in3 && in2 != in1 then (in2, true)
      else if in1 == in3 && in1 != in2 then (in1, true)
      else (in1, false)
    else (in1, true)
  }

  /** The output is in2 where in2 and in3 agree and in1 otherwise, all three differing
      included; the flag is set exactly when some input disagrees. */
  lemma VoteExactly<T>(x1: T, x2: T, x3: T)
    ensures Vote(x1, x2, x3) == (if x2 == x3 then x2 else x1, !(x1 == x2 == x3))
  {
  }

  /** Whatever one input is, two agreeing inputs win; a fault is detected exactly when
      some input disagrees. */
  lemma VoteMajority<T>(good: T, x1: T, x2: T, x3: T, bad: nat)
    requires bad != 1 ==> x1 == good
    requires bad != 2 ==> x2 == good
    requires bad != 3 ==> x3 == good
    ensures Vote(x1, x2, x3).0 == good
    ensures Vote(x1, x2, x3).1 <==> !(x1 == x2 == x3)
  {
  }

  // ----------------------------------------------------------------- one replica

  /** The divider's registers at 32 bits, the counter being 6 bits wide. */
  type Regs32 = r: D.Regs | D.Fits(r, 32) && r.cnt < 64
    witness D.Regs(D.Idle, 0, 0, Zeros(32), 0, false, false, false)

  /** What EX presents in one cycle. `other` is everything the purely combinational part
      of the ALU reads besides, `othersReady` the remaining terms of ex_ready. */
  datatype Cmd = Cmd(enable: bool, isDiv: bool, isSigned: bool, isRem: bool,
                     a: A.Bits32, b: A.Bits32, other: int, othersReady: bool, branchInEx: bool)

  datatype Out = Out(result: nat, comparison: bool, ready: bool)

  /** The result and comparison of the combinational part, for every opcode. */
  type Comb = Cmd -> (nat, bool)

  function DivIn(c: Cmd, exReady: bool): D.In {
    A.DividerIn(A.AluIn(c.enable && c.isDiv, c.isSigned, c.isRem, c.a, c.b, exReady))
  }

  function AluOut(r: Regs32, c: Cmd, comb: Comb): Out {
    Out(if c.isDiv then D.ResDo(r, 32) else comb(c).0,
        comb(c).1,
        D.OutVld(r, DivIn(c, false)))
  }

  /** ex_ready_o of the EX stage, from the ALU's ready. */
  predicate ExReady(ready: bool, c: Cmd) { (ready && c.othersReady) || c.branchInEx }

  lemma ShiftFitsCounter(c: Cmd, exReady: bool)
    ensures DivIn(c, exReady).opBShift < 64
  {
    A.ShiftBound(A.AluIn(c.enable && c.isDiv, c.isSigned, c.isRem, c.a, c.b, exReady));
  }

  lemma CounterStaysNarrow(r: Regs32, i: D.In)
    requires D.FitsIn(i, 32) && i.opBShift < 64
    ensures D.Step(r, i, 32).cnt < 64
  {
  }

  function NextRegs(r: Regs32, c: Cmd, exReady: bool): Regs32 {
    ShiftFitsCounter(c, exReady);
    CounterStaysNarrow(r, DivIn(c, exReady));
    D.Step(r, DivIn(c, exReady), 32)
  }

  /** A replica as the voters' surroundings see it: registers, outputs, next registers. */
  datatype Machine = Machine(out: (Regs32, Cmd) -> Out, next: (Regs32, Cmd, bool) -> Regs32)

  function Alu(comb: Comb): Machine {
    Machine((r: Regs32, c: Cmd) => AluOut(r, c, comb),
            (r: Regs32, c: Cmd, exReady: bool) => NextRegs(r, c, exReady))
  }

  // ---------------------------------------------------------------- closed loops

  /** A machine in its core: `env` picks each command from what the core has seen so far,
      and `see` is what the core sees of the outputs. */
  datatype System<!O> = System(m: Machine, env: seq<O> -> Cmd, see: (Cmd, Out) -> O)

  /** One ALU in the core: its registers and what the core has seen so far. */
  datatype Single<!O> = Single(regs: Regs32, seen: seq<O>)

  datatype Triple<!O> = Triple(r1: Regs32, r2: Regs32, r3: Regs32, seen: seq<O>)

  /** A corruption of replica `bad` (0: none): any outputs now, any registers next. */
  datatype Fault = Fault(bad: nat, out: Out, next: Regs32)

  function SingleStep<O>(s: Single<O>, y: System<O>): Single<O> {
    var c := y.env(s.seen);
    var out := y.m.out(s.regs, c);
    Single(y.m.next(s.regs, c, ExReady(out.ready, c)), s.seen + [y.see(c, out)])
  }

  function ReplicaOut(k: nat, r: Regs32, m: Machine, c: Cmd, f: Fault): Out {
    if f.bad == k then f.out else m.out(r, c)
  }

  function ReplicaNext(k: nat, r: Regs32, m: Machine, c: Cmd, exReady: bool, f: Fault): Regs32 {
    if f.bad == k then f.next else m.next(r, c, exReady)
  }

  function Voted<O>(t: Triple<O>, m: Machine, c: Cmd, f: Fault): Out {
    var o1 := ReplicaOut(1, t.r1, m, c, f);
    var o2 := ReplicaOut(2, t.r2, m, c, f);
    var o3 := ReplicaOut(3, t.r3, m, c, f);
    Out(Vote(o1.result, o2.result, o3.result).0,
        Vote(o1.comparison, o2.comparison, o3.comparison).0,
        Vote(o1.ready, o2.ready, o3.ready).0)
  }

  function TripleStep<O>(t: Triple<O>, y: System<O>, f: Fault): Triple<O> {
    var c := y.env(t.seen);
    var out := Voted(t, y.m, c, f);
    var rdy := ExReady(out.ready, c);
    Triple(ReplicaNext(1, t.r1, y.m, c, rdy, f), ReplicaNext(2, t.r2, y.m, c, rdy, f),
           ReplicaNext(3, t.r3, y.m, c, rdy, f), t.seen + [y.see(c, out)])
  }

  function SingleRun<O>(r: Regs32, y: System<O>, n: nat): Single<O> {
    if n == 0 then Single(r, []) else SingleStep(SingleRun(r, y, n - 1), y)
  }

  function TripleRun<O>(r: Regs32, y: System<O>, faults: nat -> Fault, n: nat): Triple<O> {
    if n == 0 then Triple(r, r, r, [])
    else TripleStep(TripleRun(r, y, faults, n - 1), y, faults(n - 1))
  }

  // ------------------------------------------------------- one faulty replica

  /** All replicas but the bad one are in the fault-free ALU's state. */
  ghost predicate HealthyMatch<O>(t: Triple<O>, s: Single<O>, bad: nat) {
    && t.seen == s.seen
    && (bad != 1 ==> t.r1 == s.regs) && (bad != 2 ==> t.r2 == s.regs) && (bad != 3 ==> t.r3 == s.regs)
  }

  lemma MaskedOutputs<O>(t: Triple<O>, s: Single<O>, m: Machine, c: Cmd, f: Fault, bad: nat)
    requires HealthyMatch(t, s, bad) && (f.bad == bad || f.bad == 0)
    ensures Voted(t, m, c, f) == m.out(s.regs, c)
  {
    var g := m.out(s.regs, c);
    var o1 := ReplicaOut(1, t.r1, m, c, f);
    var o2 := ReplicaOut(2, t.r2, m, c, f);
    var o3 := ReplicaOut(3, t.r3, m, c, f);
    VoteMajority(g.result, o1.result, o2.result, o3.result, bad);
    VoteMajority(g.comparison, o1.comparison, o2.comparison, o3.comparison, bad);
    VoteMajority(g.ready, o1.ready, o2.ready, o3.ready, bad);
  }

  lemma MaskedStep<O>(t: Triple<O>, s: Single<O>, y: System<O>, f: Fault, bad: nat)
    requires HealthyMatch(t, s, bad) && (f.bad == bad || f.bad == 0)
    ensures HealthyMatch(TripleStep(t, y, f), SingleStep(s, y), bad)
  {
    MaskedOutputs(t, s, y.m, y.env(s.seen), f, bad);
  }

  /** One fixed replica corrupted at any cycles in any way: whatever the core does with
      what it sees, the voted result, comparison and ready are those of a single
      fault-free ALU at every cycle, although EX's ready feeds back from the vote. */
  lemma {:induction false} SingleReplicaMasked(r: Regs32, comb: Comb, env: seq<Out> -> Cmd,
                                               faults: nat -> Fault, bad: nat, n: nat)
    requires forall t: nat :: faults(t).bad == bad || faults(t).bad == 0
    ensures var y := System(Alu(comb), env, (c: Cmd, o: Out) => o);
      TripleRun(r, y, faults, n).seen == SingleRun(r, y, n).seen
  {
    MaskedRun(r, System(Alu(comb), env, (c: Cmd, o: Out) => o), faults, bad, n);
  }

  lemma {:induction false} MaskedRun<O>(r: Regs32, y: System<O>,
                                        faults: nat -> Fault, bad: nat, n: nat)
    requires forall t: nat :: faults(t).bad == bad || faults(t).bad == 0
    ensures HealthyMatch(TripleRun(r, y, faults, n), SingleRun(r, y, n), bad)
  {
    if n > 0 {
      MaskedRun(r, y, faults, bad, n - 1);
      MaskedStep(TripleRun(r, y, faults, n - 1), SingleRun(r, y, n - 1),
                 y, faults(n - 1), bad);
    }
  }

  // -------------------------------------------------------------------- recovery

  /** Cycles to IDLE when nothing is requested and the output is taken. */
  function CyclesLeft(r: D.Regs): nat {
    match r.fsm
    case Idle => 0
    case Finish => 1
    case Divide => r.cnt + 2
    case Stuck => 66
  }

  predicate Quiet(c: Cmd, exReady: bool) { !(c.enable && c.isDiv) && exReady }

  /** A quiet cycle brings the registers one cycle closer to IDLE, unless they are in the
      state code without exit. */
  predicate Closer(r: D.Regs, n: D.Regs) {
    if r.fsm == D.Stuck then n.fsm == D.Stuck
    else n.fsm != D.Stuck && CyclesLeft(n) == if CyclesLeft(r) == 0 then 0 else CyclesLeft(r) - 1
  }

  lemma QuietStep(r: Regs32, c: Cmd)
    requires Quiet(c, true)
    ensures Closer(r, NextRegs(r, c, true))
  {
    var i := DivIn(c, true);
    assert !i.inVld && i.outRdy;
    QuietEdge(r, i);
    ShiftFitsCounter(c, true);
  }

  lemma QuietEdge(r: Regs32, i: D.In)
    requires D.FitsIn(i, 32) && !i.inVld && i.outRdy
    ensures Closer(r, D.Step(r, i, 32))
  {
    match r.fsm
    case Idle =>
    case Divide =>
    case Finish =>
    case Stuck =>
  }

  /** Same registers, or both idle with whatever an earlier division left behind. */
  predicate Agree(r: D.Regs, g: D.Regs) { r == g || (r.fsm == D.Idle && g.fsm == D.Idle) }

  /** Agreeing dividers stay in agreement, and accepting a request makes their registers
      equal: a recovered divider's next division is a healthy one's, cycle by cycle. */
  lemma AgreeStep(r: Regs32, g: Regs32, c: Cmd, exReady: bool)
    requires Agree(r, g)
    ensures Agree(NextRegs(r, c, exReady), NextRegs(g, c, exReady))
    ensures c.enable && c.isDiv ==> NextRegs(r, c, exReady) == NextRegs(g, c, exReady)
  {
  }

  /** Agreeing replicas are ready together and, whenever EX completes, show the same. */
  lemma AgreeOutputs(r: Regs32, g: Regs32, c: Cmd, comb: Comb)
    requires Agree(r, g)
    ensures AluOut(r, c, comb).ready == AluOut(g, c, comb).ready
    ensures AluOut(r, c, comb).comparison == AluOut(g, c, comb).comparison
    ensures c.enable && AluOut(g, c, comb).ready ==> AluOut(r, c, comb).result == AluOut(g, c, comb).result
  {
  }

  lemma BusyWhileAccepting(r: Regs32, c: Cmd)
    requires c.enable && c.isDiv && r.fsm == D.Idle
    ensures !D.OutVld(r, DivIn(c, false))
  {
  }

  /** The result port itself is the same for all agreeing replicas exactly without a
      division opcode: with one, an idle replica shows whatever its last division left. */
  lemma StaleResultIff(c: Cmd, comb: Comb)
    ensures (forall r: Regs32, g: Regs32 :: Agree(r, g) ==> AluOut(r, c, comb).result == AluOut(g, c, comb).result)
       <==> !c.isDiv
  {
    if c.isDiv {
      var g: Regs32 := D.Regs(D.Idle, 0, 0, Zeros(32), 0, true, false, false);
      var r: Regs32 := g.(a := 1);
      assert Agree(r, g);
      assert AluOut(r, c, comb).result == D.ResDo(r, 32) == 1 && AluOut(g, c, comb).result == D.ResDo(g, 32) == 0;
    }
  }

  /** While a request is accepted such a difference goes with a low ready signal. */
  lemma StaleResultWhileAccepting(c: Cmd, comb: Comb)
    requires c.enable && c.isDiv
    ensures exists r: Regs32, g: Regs32 ::
      Agree(r, g) && AluOut(r, c, comb).result != AluOut(g, c, comb).result && !AluOut(r, c, comb).ready
  {
    var g: Regs32 := D.Regs(D.Idle, 0, 0, Zeros(32), 0, true, false, false);
    var r: Regs32 := g.(a := 1);
    assert Agree(r, g);
    assert D.ResDo(r, 32) == 1 && D.ResDo(g, 32) == 0;
    BusyWhileAccepting(r, c);
  }

  // -------------------------------------------------- faults in changing replicas

  /** What the core uses: ready and the comparison always, the result when EX completes. */
  datatype Obs = Obs(ready: bool, comparison: bool, result: nat)

  function Observe(c: Cmd, o: Out): Obs {
    Obs(o.ready, o.comparison, if c.enable && o.ready then o.result else 0)
  }

  /** The facts about a replica the argument rests on. */
  ghost predicate WellBehaved(m: Machine) {
    && (forall r: Regs32, g: Regs32, c, x :: Agree(r, g) ==> Agree(m.next(r, c, x), m.next(g, c, x)))
    && (forall r: Regs32, g: Regs32, c :: Agree(r, g) ==> Observe(c, m.out(r, c)) == Observe(c, m.out(g, c)))
    && (forall r: Regs32, c, x :: r.fsm != D.Stuck ==> m.next(r, c, x).fsm != D.Stuck)
    && (forall r: Regs32, c :: Quiet(c, true) ==> Closer(r, m.next(r, c, true)))
  }

  lemma AluWellBehaved(comb: Comb)
    ensures WellBehaved(Alu(comb))
  {
    var m := Alu(comb);
    forall r: Regs32, g: Regs32, c, x | Agree(r, g) ensures Agree(m.next(r, c, x), m.next(g, c, x)) {
      AgreeStep(r, g, c, x);
    }
    forall r: Regs32, g: Regs32, c | Agree(r, g) ensures Observe(c, m.out(r, c)) == Observe(c, m.out(g, c)) {
      AgreeOutputs(r, g, c, comb);
    }
    forall r: Regs32, c, x | r.fsm != D.Stuck ensures m.next(r, c, x).fsm != D.Stuck {
      StaysNamed(r, c, x);
    }
    forall r: Regs32, c | Quiet(c, true) ensures Closer(r, m.next(r, c, true)) {
      QuietStep(r, c);
    }
  }

  lemma StaysNamed(r: Regs32, c: Cmd, exReady: bool)
    requires r.fsm != D.Stuck
    ensures NextRegs(r, c, exReady).fsm != D.Stuck
  {
  }

  /** A replica after n cycles with these commands and this EX ready. */
  function ReplicaRun(r: Regs32, m: Machine, cs: nat -> Cmd, ready: nat -> bool, n: nat): Regs32 {
    if n == 0 then r else m.next(ReplicaRun(r, m, cs, ready, n - 1), cs(n - 1), ready(n - 1))
  }

  lemma {:induction false} QuietCountdown(r: Regs32, m: Machine, cs: nat -> Cmd, ready: nat -> bool, n: nat)
    requires WellBehaved(m) && forall t: nat :: t < n ==> Quiet(cs(t), ready(t))
    ensures var e := ReplicaRun(r, m, cs, ready, n);
      if r.fsm == D.Stuck then e.fsm == D.Stuck
      else e.fsm != D.Stuck && CyclesLeft(e) == if CyclesLeft(r) <= n then 0 else CyclesLeft(r) - n
  {
    if n > 0 {
      QuietCountdown(r, m, cs, ready, n - 1);
      assert Quiet(cs(n - 1), true) && ready(n - 1);
      assert Closer(ReplicaRun(r, m, cs, ready, n - 1), ReplicaRun(r, m, cs, ready, n));
    }
  }

  /** 65 quiet cycles bring any register contents to IDLE, except exactly those in the
      state code without exit. */
  lemma QuietRecovers(r: Regs32, comb: Comb, cs: nat -> Cmd, ready: nat -> bool)
    requires forall t: nat :: t < 65 ==> Quiet(cs(t), ready(t))
    ensures ReplicaRun(r, Alu(comb), cs, ready, 65).fsm == D.Idle <==> r.fsm != D.Stuck
  {
    AluWellBehaved(comb);
    QuietCountdown(r, Alu(comb), cs, ready, 65);
  }

  /** From then on the replica and any other one agree and show the core the same at every
      cycle, divisions included, whatever either held before. */
  lemma {:induction false} RecoveredForGood(r: Regs32, g: Regs32, comb: Comb, cs: nat -> Cmd,
                                            ready: nat -> bool, n: nat)
    requires r.fsm != D.Stuck && g.fsm != D.Stuck && n >= 65
    requires forall t: nat :: t < 65 ==> Quiet(cs(t), ready(t))
    ensures var m := Alu(comb); var a, b := ReplicaRun(r, m, cs, ready, n), ReplicaRun(g, m, cs, ready, n);
      Agree(a, b) && Observe(cs(n), m.out(a, cs(n))) == Observe(cs(n), m.out(b, cs(n)))
  {
    var m := Alu(comb);
    AluWellBehaved(comb);
    if n == 65 {
      QuietRecovers(r, comb, cs, ready);
      QuietRecovers(g, comb, cs, ready);
    } else {
      RecoveredForGood(r, g, comb, cs, ready, n - 1);
      AgreeingNext(ReplicaRun(r, m, cs, ready, n - 1), ReplicaRun(g, m, cs, ready, n - 1), m, cs(n - 1), ready(n - 1));
    }
    AgreeingOut(ReplicaRun(r, m, cs, ready, n), ReplicaRun(g, m, cs, ready, n), m, cs(n));
  }

  lemma AgreeingNext(r: Regs32, g: Regs32, m: Machine, c: Cmd, exReady: bool)
    requires WellBehaved(m) && Agree(r, g)
    ensures Agree(m.next(r, c, exReady), m.next(g, c, exReady))
  {
  }

  lemma AgreeingOut(r: Regs32, g: Regs32, m: Machine, c: Cmd)
    requires WellBehaved(m) && Agree(r, g)
    ensures Observe(c, m.out(r, c)) == Observe(c, m.out(g, c))
  {
  }

  /** The replica that may be out of step (0: none), and for how many cycles in a row
      nothing has been requested and EX has been ready. */
  datatype Suspicion = Suspicion(suspect: nat, quiet: nat)

  function Update(u: Suspicion, c: Cmd, exReady: bool, f: Fault): Suspicion {
    if f.bad != 0 then Suspicion(f.bad, 0)
    else if !Quiet(c, exReady) then u.(quiet := 0)
    else if u.quiet + 1 >= 65 then Suspicion(0, u.quiet + 1)
    else u.(quiet := u.quiet + 1)
  }

  /** The triplicated ALU, the fault-free one and the suspicion, side by side. */
  datatype Both = Both(triple: Triple<Obs>, single: Single<Obs>, suspicion: Suspicion)

  function BothStep(b: Both, y: System<Obs>, f: Fault): Both {
    var c := y.env(b.single.seen);
    var exReady := ExReady(y.m.out(b.single.regs, c).ready, c);
    Both(TripleStep(b.triple, y, f), SingleStep(b.single, y),
         Update(b.suspicion, c, exReady, f))
  }

  /** The suspicion after n cycles. */
  function SuspicionRun(r: Regs32, y: System<Obs>, faults: nat -> Fault, n: nat): Suspicion {
    if n == 0 then Suspicion(0, 0)
    else
      var s := SingleRun(r, y, n - 1);
      var c := y.env(s.seen);
      Update(SuspicionRun(r, y, faults, n - 1), c, ExReady(y.m.out(s.regs, c).ready, c), faults(n - 1))
  }

  /** Both after n cycles from the same registers, with faults in the triplicated one. */
  function BothRun(r: Regs32, y: System<Obs>, faults: nat -> Fault, n: nat): Both {
    Both(TripleRun(r, y, faults, n), SingleRun(r, y, n), SuspicionRun(r, y, faults, n))
  }

  /** A fault hits a replica only while no other one is under suspicion, and leaves it in
      one of the three named states. */
  predicate Admissible(u: Suspicion, f: Fault) {
    f.bad != 0 ==> f.bad <= 3 && (u.suspect == 0 || u.suspect == f.bad) && f.next.fsm != D.Stuck
  }

  /** On the way to IDLE: within 65 - quiet more quiet cycles, or there already. */
  predicate Settling(r: D.Regs, quiet: nat) {
    r.fsm == D.Idle || (r.fsm != D.Stuck && CyclesLeft(r) + quiet <= 65)
  }

  /** A replica agrees with the fault-free ALU, or is the suspect and settling. */
  predicate Tracks(k: nat, r: D.Regs, g: D.Regs, u: Suspicion) {
    if k != u.suspect then Agree(r, g) else Settling(r, u.quiet)
  }

  ghost predicate InStep(b: Both) {
    var Both(t, s, u) := b;
    && t.seen == s.seen && Settling(s.regs, u.quiet)
    && Tracks(1, t.r1, s.regs, u) && Tracks(2, t.r2, s.regs, u) && Tracks(3, t.r3, s.regs, u)
  }

  lemma FreshlySettling(r: Regs32)
    requires r.fsm != D.Stuck
    ensures Settling(r, 0)
  {
  }

  lemma SettlingStep(r: Regs32, m: Machine, c: Cmd, exReady: bool, quiet: nat)
    requires WellBehaved(m) && Settling(r, quiet)
    ensures Settling(m.next(r, c, exReady), if Quiet(c, exReady) then quiet + 1 else 0)
  {
    var n := m.next(r, c, exReady);
    assert n.fsm != D.Stuck;
    if Quiet(c, exReady) { assert Closer(r, n); } else { FreshlySettling(n); }
  }

  lemma ReplicaProgress(k: nat, r: Regs32, g: Regs32, m: Machine, c: Cmd, exReady: bool, u: Suspicion, f: Fault)
    requires WellBehaved(m) && 1 <= k && Tracks(k, r, g, u) && Admissible(u, f) && Settling(g, u.quiet)
    ensures Tracks(k, ReplicaNext(k, r, m, c, exReady, f), m.next(g, c, exReady), Update(u, c, exReady, f))
  {
    SettlingStep(g, m, c, exReady, u.quiet);
    if f.bad == k {
      FreshlySettling(f.next);
    } else if k == u.suspect {
      SettlingStep(r, m, c, exReady, u.quiet);
    } else {
      assert Agree(m.next(r, c, exReady), m.next(g, c, exReady));
    }
  }

  lemma ReplicaObserved(k: nat, r: Regs32, g: Regs32, u: Suspicion, m: Machine, c: Cmd, f: Fault)
    requires WellBehaved(m) && Tracks(k, r, g, u) && f.bad != k && u.suspect != k
    ensures Observe(c, ReplicaOut(k, r, m, c, f)) == Observe(c, m.out(g, c))
  {
  }

  lemma VoteObserved(g: Out, o1: Out, o2: Out, o3: Out, c: Cmd, bad: nat)
    requires bad != 1 ==> Observe(c, o1) == Observe(c, g)
    requires bad != 2 ==> Observe(c, o2) == Observe(c, g)
    requires bad != 3 ==> Observe(c, o3) == Observe(c, g)
    ensures Observe(c, Out(Vote(o1.result, o2.result, o3.result).0,
                           Vote(o1.comparison, o2.comparison, o3.comparison).0,
                           Vote(o1.ready, o2.ready, o3.ready).0)) == Observe(c, g)
  {
    VoteMajority(g.comparison, o1.comparison, o2.comparison, o3.comparison, bad);
    VoteMajority(g.ready, o1.ready, o2.ready, o3.ready, bad);
    if c.enable && g.ready {
      VoteMajority(g.result, o1.result, o2.result, o3.result, bad);
    }
  }

  lemma VotedObserved(b: Both, m: Machine, c: Cmd, f: Fault)
    requires WellBehaved(m) && InStep(b) && Admissible(b.suspicion, f)
    ensures Observe(c, Voted(b.triple, m, c, f)) == Observe(c, m.out(b.single.regs, c))
  {
    var Both(t, s, u) := b;
    var bad := if f.bad != 0 then f.bad else u.suspect;
    if bad != 1 { ReplicaObserved(1, t.r1, s.regs, u, m, c, f); }
    if bad != 2 { ReplicaObserved(2, t.r2, s.regs, u, m, c, f); }
    if bad != 3 { ReplicaObserved(3, t.r3, s.regs, u, m, c, f); }
    VoteObserved(m.out(s.regs, c), ReplicaOut(1, t.r1, m, c, f), ReplicaOut(2, t.r2, m, c, f),
                 ReplicaOut(3, t.r3, m, c, f), c, bad);
  }

  ghost predicate Reliable(y: System<Obs>) {
    WellBehaved(y.m) && forall c, o :: y.see(c, o) == Observe(c, o)
  }

  lemma InStepNext(b: Both, y: System<Obs>, f: Fault)
    requires Reliable(y) && InStep(b) && Admissible(b.suspicion, f)
    ensures InStep(BothStep(b, y, f))
  {
    var Both(t, s, u) := b;
    var c := y.env(s.seen);
    var m := y.m;
    var rdy := ExReady(m.out(s.regs, c).ready, c);
    VotedObserved(b, m, c, f);
    SettlingStep(s.regs, m, c, rdy, u.quiet);
    if f.bad != 0 { FreshlySettling(m.next(s.regs, c, rdy)); }
    ReplicaProgress(1, t.r1, s.regs, m, c, rdy, u, f);
    ReplicaProgress(2, t.r2, s.regs, m, c, rdy, u, f);
    ReplicaProgress(3, t.r3, s.regs, m, c, rdy, u, f);
  }

  /** Every fault of the first n cycles is admissible when it strikes. */
  ghost predicate AllAdmissible(r: Regs32, y: System<Obs>, faults: nat -> Fault, n: nat) {
    n == 0 || (AllAdmissible(r, y, faults, n - 1)
               && Admissible(BothRun(r, y, faults, n - 1).suspicion, faults(n - 1)))
  }

  lemma {:induction false} InStepRun(r: Regs32, y: System<Obs>, faults: nat -> Fault, n: nat)
    requires Reliable(y) && r.fsm == D.Idle && AllAdmissible(r, y, faults, n)
    ensures InStep(BothRun(r, y, faults, n))
  {
    if n > 0 {
      var before: nat := n - 1;
      InStepRun(r, y, faults, before);
      InStepNext(BothRun(r, y, faults, before), y, faults(before));
    }
  }

  /** Faults may move from replica to replica: with 65 quiet cycles between hits on
      different replicas, the core sees a fault-free ALU at every cycle of every run. */
  lemma MovingFaultsMasked(r: Regs32, comb: Comb, env: seq<Obs> -> Cmd, faults: nat -> Fault, n: nat)
    requires r.fsm == D.Idle
    requires AllAdmissible(r, System(Alu(comb), env, Observe), faults, n)
    ensures var y := System(Alu(comb), env, Observe); TripleRun(r, y, faults, n).seen == SingleRun(r, y, n).seen
  {
    AluWellBehaved(comb);
    InStepRun(r, System(Alu(comb), env, Observe), faults, n);
  }

  // ------------------------------------------------------------ what is divided

  /** A division in EX. */
  predicate Divides(c: Cmd) { c.enable && c.isDiv }

  /** Section 7.2 of the RISC-V Unprivileged ISA manual, on the command's fields: operand b is
      the dividend, operand a the divisor. */
  function Quotient(c: Cmd): int { A.Isa(c.isSigned, c.isRem, c.b, c.a) }

  /** The cycles a division keeps its ready low. */
  function Wait(c: Cmd): nat { if Divides(c) then A.DivShift(c.a, c.isSigned && c.a[31]) + 2 else 0 }

  /** EX keeps a division as long as it is not ready; what else is in its inputs may
      change. */
  predicate SameDivision(c: Cmd, d: Cmd) {
    Divides(d) && d.isSigned == c.isSigned && d.isRem == c.isRem && d.a == c.a && d.b == c.b
  }

  function AluCommand(c: Cmd): A.AluIn { A.AluIn(Divides(c), c.isSigned, c.isRem, c.a, c.b, false) }

  lemma CommandPort(c: Cmd, exReady: bool)
    ensures DivIn(c, exReady) == A.DividerIn(AluCommand(c).(exReady := exReady))
    ensures A.Latency(AluCommand(c)) == Wait(c) && A.IsaResult(AluCommand(c)) == Quotient(c)
  {
  }

  /** The divider serves c since `age` cycles, having been idle with registers `began`. */
  predicate Serves(r: Regs32, c: Cmd, began: D.Regs, age: nat) { A.Serving(r, AluCommand(c), began, age) }

  lemma ServesStart(r: Regs32, c: Cmd)
    requires r.fsm == D.Idle
    ensures Serves(r, c, r, 0)
  {
    A.ServingStart(r, AluCommand(c));
  }

  /** Ready exactly when its time is over, and then with the quotient or remainder. */
  lemma ServesOutputs(r: Regs32, c: Cmd, comb: Comb, began: D.Regs, age: nat)
    requires Serves(r, c, began, age)
    ensures var o := AluOut(r, c, comb);
      (o.ready <==> age >= Wait(c)) && (Divides(c) && o.ready ==> o.result == Quotient(c))
  {
    CommandPort(c, false);
    A.ServingReady(r, AluCommand(c), began, age);
    if Divides(c) { A.ServingDivides(r, AluCommand(c), began, age); }
  }

  lemma ServesWaits(r: Regs32, c: Cmd, d: Cmd, began: D.Regs, age: nat)
    requires Serves(r, c, began, age) && SameDivision(c, d) && Divides(c)
    ensures Serves(NextRegs(r, c, false), d, began, age + 1)
  {
    CommandPort(c, false);
    A.ServingStays(r, AluCommand(c), began, age);
  }

  lemma ServesTaken(r: Regs32, c: Cmd, d: Cmd, began: D.Regs, age: nat)
    requires Serves(r, c, began, age) && Divides(c) && age >= Wait(c)
    ensures Serves(NextRegs(r, c, true), d, NextRegs(r, c, true), 0)
  {
    CommandPort(c, true);
    A.ServingTaken(r, AluCommand(c), began, age);
    ServesStart(NextRegs(r, c, true), d);
  }

  lemma ServesOthers(r: Regs32, c: Cmd, d: Cmd, exReady: bool)
    requires r.fsm == D.Idle && !Divides(c)
    ensures Serves(NextRegs(r, c, exReady), d, NextRegs(r, c, exReady), 0)
  {
    ServesStart(NextRegs(r, c, exReady), d);
  }

  /** EX completes: the ALU and everything else in it is ready. */
  predicate Taken(ready: bool, c: Cmd) { ready && c.othersReady }

  /** One cycle of a core that keeps a division until EX is ready. */
  lemma ServesNext(r: Regs32, c: Cmd, next: Cmd, comb: Comb, was: D.Regs, age: nat) returns (began: D.Regs)
    requires Serves(r, c, was, age)
    requires Divides(c) ==> !c.branchInEx && (!Taken(AluOut(r, c, comb).ready, c) ==> SameDivision(c, next))
    ensures var ready := AluOut(r, c, comb).ready;
      Serves(NextRegs(r, c, ExReady(ready, c)), next, began,
             if Divides(c) && !Taken(ready, c) then age + 1 else 0)
  {
    var exReady := ExReady(AluOut(r, c, comb).ready, c);
    ServesOutputs(r, c, comb, was, age);
    began := if Divides(c) && !exReady then was else NextRegs(r, c, exReady);
    if !Divides(c) { ServesOthers(r, c, next, exReady); }
    else if exReady { ServesTaken(r, c, next, was, age); }
    else { ServesWaits(r, c, next, was, age); }
  }

  // --------------------------------------------------- divisions as the core sees them

  /** How the core reads ready and result from what it sees. */
  datatype Reading<!O> = Reading(ready: O -> bool, result: O -> nat)

  /** They are the ALU's, the result at least when EX completes. */
  ghost predicate Reads<O>(d: Reading<O>, y: System<O>) {
    forall c, o :: d.ready(y.see(c, o)) == o.ready && (c.enable && o.ready ==> d.result(y.see(c, o)) == o.result)
  }

  /** In cycle t the core keeps a division that is not taken, with no branch in EX. */
  predicate KeepsAt<O>(env: seq<O> -> Cmd, d: Reading<O>, seen: seq<O>, t: nat)
    requires t < |seen|
  {
    var c := env(seen[..t]);
    Divides(c) ==> !c.branchInEx && (!Taken(d.ready(seen[t]), c) ==> SameDivision(c, env(seen[..t + 1])))
  }

  predicate Keeps<O>(env: seq<O> -> Cmd, d: Reading<O>, seen: seq<O>) {
    forall t: nat :: t < |seen| ==> KeepsAt(env, d, seen, t)
  }

  /** For how many cycles before t the command of cycle t has been waiting. */
  function Age<O>(env: seq<O> -> Cmd, d: Reading<O>, seen: seq<O>, t: nat): nat
    requires t <= |seen|
  {
    if t == 0 then 0
    else
      var c := env(seen[..t - 1]);
      if Divides(c) && !Taken(d.ready(seen[t - 1]), c) then Age(env, d, seen, t - 1) + 1 else 0
  }

  /** In cycle t the ALU is seen ready exactly if the command has waited its time, and then
      a division's result is its quotient or remainder. */
  predicate DividesAt<O>(env: seq<O> -> Cmd, d: Reading<O>, seen: seq<O>, t: nat)
    requires t < |seen|
  {
    var c := env(seen[..t]);
    && (d.ready(seen[t]) <==> Age(env, d, seen, t) >= Wait(c))
    && (Divides(c) && d.ready(seen[t]) ==> d.result(seen[t]) == Quotient(c))
  }

  lemma {:induction false} SeenPrefix<O>(r: Regs32, y: System<O>, n: nat, t: nat)
    requires t <= n
    ensures |SingleRun(r, y, n).seen| == n && SingleRun(r, y, n).seen[..t] == SingleRun(r, y, t).seen
  {
    if n > 0 {
      if t < n { SeenPrefix(r, y, n - 1, t); } else { SeenPrefix(r, y, n - 1, n - 1); }
    }
  }

  /** What one cycle of the loop shows and leaves. */
  lemma LoopCycle<O>(r: Regs32, y: System<O>, d: Reading<O>, seen: seq<O>, t: nat)
    requires Reads(d, y) && t < |seen| && seen == SingleRun(r, y, |seen|).seen
    ensures var s := SingleRun(r, y, t); var c := y.env(s.seen); var o := y.m.out(s.regs, c);
      && s.seen == seen[..t] && seen[t] == y.see(c, o) && d.ready(seen[t]) == o.ready
      && SingleRun(r, y, t + 1).regs == y.m.next(s.regs, c, ExReady(o.ready, c))
  {
    var s := SingleRun(r, y, t);
    assert SingleRun(r, y, t + 1) == SingleStep(s, y);
    SeenPrefix(r, y, |seen|, t);
    SeenPrefix(r, y, |seen|, t + 1);
    assert seen[t] == seen[..t + 1][t] == SingleStep(s, y).seen[|s.seen|];
  }

  lemma AluCycle<O>(r: Regs32, y: System<O>, comb: Comb, d: Reading<O>, seen: seq<O>, t: nat)
    requires y.m == Alu(comb) && Reads(d, y) && t < |seen| && seen == SingleRun(r, y, |seen|).seen
    ensures var s := SingleRun(r, y, t); var c := y.env(seen[..t]); var o := AluOut(s.regs, c, comb);
      && seen[t] == y.see(c, o) && d.ready(seen[t]) == o.ready
      && SingleRun(r, y, t + 1).regs == NextRegs(s.regs, c, ExReady(o.ready, c))
  {
    LoopCycle(r, y, d, seen, t);
  }

  lemma AgeNext<O>(env: seq<O> -> Cmd, d: Reading<O>, seen: seq<O>, t: nat)
    requires t < |seen|
    ensures var c := env(seen[..t]);
      Age(env, d, seen, t + 1) == if Divides(c) && !Taken(d.ready(seen[t]), c) then Age(env, d, seen, t) + 1 else 0
  {
  }

  lemma ServedNext<O>(r: Regs32, y: System<O>, comb: Comb, d: Reading<O>, seen: seq<O>, t: nat, was: D.Regs, age: nat)
    returns (began: D.Regs)
    requires y.m == Alu(comb) && Reads(d, y) && t < |seen| && seen == SingleRun(r, y, |seen|).seen
    requires KeepsAt(y.env, d, seen, t) && age == Age(y.env, d, seen, t)
    requires Serves(SingleRun(r, y, t).regs, y.env(seen[..t]), was, age)
    ensures Serves(SingleRun(r, y, t + 1).regs, y.env(seen[..t + 1]), began, Age(y.env, d, seen, t + 1))
  {
    AluCycle(r, y, comb, d, seen, t);
    AgeNext(y.env, d, seen, t);
    began := ServesNext(SingleRun(r, y, t).regs, y.env(seen[..t]), y.env(seen[..t + 1]), comb, was, age);
  }

  /** In every cycle the divider serves the command presented. */
  lemma {:induction false} Served<O>(r: Regs32, y: System<O>, comb: Comb, d: Reading<O>, seen: seq<O>, t: nat)
    returns (began: D.Regs)
    requires y.m == Alu(comb) && r.fsm == D.Idle && Reads(d, y)
    requires seen == SingleRun(r, y, |seen|).seen && Keeps(y.env, d, seen) && t <= |seen|
    ensures Serves(SingleRun(r, y, t).regs, y.env(seen[..t]), began, Age(y.env, d, seen, t))
  {
    if t == 0 {
      began := r;
      ServesStart(r, y.env(seen[..0]));
    } else {
      var before: nat := t - 1;
      var was := Served(r, y, comb, d, seen, before);
      assert KeepsAt(y.env, d, seen, before);
      began := ServedNext(r, y, comb, d, seen, before, was, Age(y.env, d, seen, before));
    }
  }

  lemma SingleDivides<O>(r: Regs32, y: System<O>, comb: Comb, d: Reading<O>, n: nat, t: nat)
    requires y.m == Alu(comb) && r.fsm == D.Idle && Reads(d, y) && t < n
    requires Keeps(y.env, d, SingleRun(r, y, n).seen)
    ensures |SingleRun(r, y, n).seen| == n && DividesAt(y.env, d, SingleRun(r, y, n).seen, t)
  {
    var seen := SingleRun(r, y, n).seen;
    SeenPrefix(r, y, n, n);
    var began := Served(r, y, comb, d, seen, t);
    AluCycle(r, y, comb, d, seen, t);
    ServesOutputs(SingleRun(r, y, t).regs, y.env(seen[..t]), comb, began, Age(y.env, d, seen, t));
  }

  /** One fixed replica corrupted in any way: whatever the core does, as long as it keeps a
      division until EX is ready, the vote is seen not ready for exactly the division's time,
      and then with the quotient or remainder of its operands. */
  lemma MaskedDivisions(r: Regs32, comb: Comb, env: seq<Out> -> Cmd, faults: nat -> Fault, bad: nat, n: nat, t: nat)
    requires r.fsm == D.Idle && (forall k: nat :: faults(k).bad == bad || faults(k).bad == 0) && t < n
    requires var y := System(Alu(comb), env, (c: Cmd, o: Out) => o);
      Keeps(env, Reading((o: Out) => o.ready, (o: Out) => o.result), TripleRun(r, y, faults, n).seen)
    ensures var y := System(Alu(comb), env, (c: Cmd, o: Out) => o); var seen := TripleRun(r, y, faults, n).seen;
      |seen| == n && DividesAt(env, Reading((o: Out) => o.ready, (o: Out) => o.result), seen, t)
  {
    var y := System(Alu(comb), env, (c: Cmd, o: Out) => o);
    SingleReplicaMasked(r, comb, env, faults, bad, n);
    SingleDivides(r, y, comb, Reading((o: Out) => o.ready, (o: Out) => o.result), n, t);
  }

  /** The same with faults moving between replicas, 65 quiet cycles apart. */
  lemma MovingFaultsDivide(r: Regs32, comb: Comb, env: seq<Obs> -> Cmd, faults: nat -> Fault, n: nat, t: nat)
    requires r.fsm == D.Idle && AllAdmissible(r, System(Alu(comb), env, Observe), faults, n) && t < n
    requires var seen := TripleRun(r, System(Alu(comb), env, Observe), faults, n).seen;
      Keeps(env, Reading((o: Obs) => o.ready, (o: Obs) => o.result), seen)
    ensures var seen := TripleRun(r, System(Alu(comb), env, Observe), faults, n).seen;
      |seen| == n && DividesAt(env, Reading((o: Obs) => o.ready, (o: Obs) => o.result), seen, t)
  {
    var y := System(Alu(comb), env, Observe);
    MovingFaultsMasked(r, comb, env, faults, n);
    SingleDivides(r, y, comb, Reading((o: Obs) => o.ready, (o: Obs) => o.result), n, t);
  }
}
