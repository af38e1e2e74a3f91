/** Setting up both hardware loops in any order, the documentation's matrix example, and
    what the order of its writes leads to. */
module SetupOrder {
  import A = Aligner
  import H = HwLoop
  import L = LoopOrder
  import N = NestedLoops
  import O = OneLoop
  import S = LoopStages
  import opened Runs

  /** Where the loops begin, and which of the register sets are used. */
  datatype Zone = Zone(start: nat, uses0: bool, uses1: bool)

  predicate Uses(z: Zone, i: nat) { if i == 0 then z.uses0 else z.uses1 }

  /** An end address that nothing up to the start comes near. */
  predicate Harmless(start: nat, end: nat) { end == 0 || end >= start + 3 }

  /** The end addresses of the sets used are harmless; another set counts at most one
      iteration. */
  predicate Settled(z: Zone, l: H.Pair) {
    forall i :: 0 <= i < 2 ==> if Uses(z, i) then Harmless(z.start, l.end[i]) else l.count[i] <= 1
  }

  /** A plain instruction that writes nothing else. */
  predicate SetsUp(z: Zone, act: L.Action) {
    && act.Executes?
    && (act.write.we1 && Uses(z, act.write.regid) ==> Harmless(z.start, act.write.end))
    && (act.write.we2 && !Uses(z, act.write.regid) ==> act.write.count <= 1)
  }

  predicate BeforeFor(start: nat, code: A.Code, pc: A.Pc, j: nat) {
    j == 0 || (BeforeFor(start, code, pc, j - 1) && A.WalkPc(code, pc, j - 1).index < start)
  }

  /** The code from pc on comes to the start after j instructions, all before it. */
  predicate ComesTo(start: nat, code: A.Code, pc: A.Pc, j: nat) {
    start + 3 <= A.WORDS && BeforeFor(start, code, pc, j) && A.WalkPc(code, pc, j) == A.Pc(start, false)
  }

  lemma {:induction false} BeforeAt(start: nat, code: A.Code, pc: A.Pc, j: nat, t: nat)
    requires BeforeFor(start, code, pc, j) && t < j
    ensures A.WalkPc(code, pc, t).index < start
    decreases j
  {
    if t < j - 1 { BeforeAt(start, code, pc, j - 1, t); }
  }

  predicate StillBefore(start: nat, code: A.Code, pcs: nat -> A.Pc, t: nat) {
    pcs(t).index < start && pcs(t + 1).index <= start && pcs(t + 1) == A.After(code, pcs(t))
  }

  lemma BeforeNext(start: nat, code: A.Code, pc: A.Pc, j: nat, t: nat)
    requires ComesTo(start, code, pc, j) && t < j
    ensures StillBefore(start, code, O.WalkOf(code, pc), t)
  {
    BeforeAt(start, code, pc, j, t);
    if t + 1 < j { BeforeAt(start, code, pc, j, t + 1); }
  }

  lemma SettledIsCalm(z: Zone, l: H.Pair, pc: A.Pc)
    requires z.start + 3 <= A.WORDS && Settled(z, l) && pc.index <= z.start
    ensures L.Calm(l, pc)
  {
  }

  lemma SettledStays(z: Zone, l: H.Pair, pc: A.Pc, act: L.Action)
    requires Settled(z, l) && SetsUp(z, act)
    ensures Settled(z, L.NextLoops(l, pc, act))
  {
  }

  function SettingUp(z: Zone, pcs: nat -> A.Pc): (nat, L.At) -> bool {
    (t: nat, x: L.At) => Settled(z, x.loops) && x.pc == pcs(t)
  }

  lemma SetupStep(z: Zone, a: L.At, act: L.Action, code: A.Code)
    requires z.start + 3 <= A.WORDS && Settled(z, a.loops) && SetsUp(z, act)
    requires a.pc.index <= z.start && A.After(code, a.pc).index <= z.start
    ensures L.CalmAt(a, act, code)
    ensures Settled(z, L.After(a, act, code).loops) && L.After(a, act, code).pc == A.After(code, a.pc)
  {
    SettledIsCalm(z, a.loops, a.pc);
    assert forall i :: 0 <= i < 2 ==> !L.Again(a.loops, i, a.pc);
    SettledStays(z, a.loops, a.pc, act);
    SettledIsCalm(z, L.NextLoops(a.loops, a.pc, act), A.After(code, a.pc));
  }

  lemma SetupMoves(z: Zone, prog: L.Program, code: A.Code, pcs: nat -> A.Pc, t: nat, x: L.At, k: nat)
    requires z.start + 3 <= A.WORDS && SettingUp(z, pcs)(t, x) && StillBefore(z.start, code, pcs, t)
    requires SetsUp(z, prog(k, x.pc))
    ensures L.CalmOk(prog, code)(x, k) && SettingUp(z, pcs)(t + 1, L.Stepper(prog, code)(x, k))
  {
    SetupStep(z, x, prog(k, x.pc), code);
  }

  /** Until the j-th instruction everything sets up. */
  ghost predicate SetsUpUntil(z: Zone, prog: L.Program, j: nat) {
    forall k: nat, pc :: k < j ==> SetsUp(z, prog(k, pc))
  }

  lemma SetupIsCalm(z: Zone, a: L.At, prog: L.Program, code: A.Code, pcs: nat -> A.Pc, j: nat)
    requires z.start + 3 <= A.WORDS && Settled(z, a.loops) && a.pc == pcs(0) && SetsUpUntil(z, prog, j)
    requires forall t: nat :: t < j ==> StillBefore(z.start, code, pcs, t)
    ensures L.CalmFor(a, prog, code, 0, j)
  {
    var inv, step, ok, env := SettingUp(z, pcs), L.Stepper(prog, code), L.CalmOk(prog, code), L.From(0);
    assert inv(0, a);
    forall t: nat, x: L.At | t < j && inv(t, x) ensures ok(x, env(t)) && inv(t + 1, step(x, env(t))) {
      assert StillBefore(z.start, code, pcs, t);
      SetupMoves(z, prog, code, pcs, t, x, env(t));
    }
    KeptBy(inv, a, step, ok, env, j, j);
  }

  lemma SetupComes(z: Zone, a: L.At, prog: L.Program, code: A.Code, j: nat)
    requires Settled(z, a.loops) && SetsUpUntil(z, prog, j) && ComesTo(z.start, code, a.pc, j)
    ensures L.CalmFor(a, prog, code, 0, j) && O.Start(a, prog, code, j).pc == A.Pc(z.start, false)
  {
    var pcs := O.WalkOf(code, a.pc);
    forall t: nat | t < j ensures StillBefore(z.start, code, pcs, t) { BeforeNext(z.start, code, a.pc, j, t); }
    SetupIsCalm(z, a, prog, code, pcs, j);
    L.CalmWalk(a, prog, code, 0, j);
  }

  function ForLoop(start: nat, k: nat): Zone { Zone(start, k == 0, k == 1) }

  function ForNest(n: N.Nest): Zone { Zone(n.start1, true, true) }

  /** One loop, for either register set: whatever the instructions before it write, in
      whichever order, as long as the end addresses they leave lie behind its start and the
      other counter stays at 0 or 1: the loop is executed from there as its registers then
      say. */
  lemma AnyLoopSetup(k: nat, a: L.At, prog: L.Program, code: A.Code, j: nat)
    requires k < 2 && O.AtStart(O.Start(a, prog, code, j), k, code) && L.Plainly(prog, j)
    requires var z := ForLoop(O.Start(a, prog, code, j).loops.start[k], k);
      Settled(z, a.loops) && SetsUpUntil(z, prog, j) && ComesTo(z.start, code, a.pc, j)
    ensures O.Ready(a, k, prog, code, j)
  {
    SetupComes(ForLoop(O.Start(a, prog, code, j).loops.start[k], k), a, prog, code, j);
  }

  /** Both loops: whatever the instructions before the nest write, in whichever order, as
      long as the end addresses they leave lie behind its start: the nest is executed from
      there as its registers then say. */
  lemma AnySetup(n: N.Nest, r: nat, m: nat, count: nat, a: L.At, prog: L.Program, code: A.Code, j: nat)
    requires N.ResetBehind(n, r) && m > 0 && count > 0
    requires N.Resets(prog, j, r, m) && O.Uncompressed(code, n.start1, n.end1)
    requires Settled(ForNest(n), a.loops) && SetsUpUntil(ForNest(n), prog, j) && ComesTo(n.start1, code, a.pc, j)
    requires O.Start(a, prog, code, j).loops == N.Regs(n, m, count)
    ensures N.Ready(n, r, m, count, a, prog, code, j)
  {
    SetupComes(ForNest(n), a, prog, code, j);
  }

  // ------------------------------------------------------- the documented order of writes

  function SetStart(k: nat, start: nat): L.LoopWrite
    requires k < 2
  {
    H.Write(true, false, false, k, start, 0, 0)
  }

  function SetEnd(k: nat, end: nat): L.LoopWrite
    requires k < 2
  {
    H.Write(false, true, false, k, 0, end, 0)
  }

  function SetCount(k: nat, count: nat): L.LoopWrite
    requires k < 2
  {
    H.Write(false, false, true, k, 0, 0, count)
  }

  /** The outer loop's counter, end and start, the inner loop's end, start and counter, and
      then nothing. */
  function SetupWrite(n: N.Nest, m: nat, count: nat, k: nat): L.LoopWrite {
    if k == 0 then SetCount(1, count) else if k == 1 then SetEnd(1, n.end1) else if k == 2 then SetStart(1, n.start1)
    else if k == 3 then SetEnd(0, n.end0) else if k == 4 then SetStart(0, n.start0)
    else if k == 5 then SetCount(0, m) else L.NoWrite()
  }

  /** These writes, and later the reset at word r. */
  function Documented(n: N.Nest, r: nat, m: nat, count: nat): L.Program {
    (k: nat, pc: A.Pc) =>
      L.Executes(if k < 6 then SetupWrite(n, m, count, k)
                 else if pc == A.Pc(r, false) then N.SetInner(m) else L.NoWrite())
  }

  /** The registers before the k-th instruction. */
  function Written(l: H.Pair, n: N.Nest, m: nat, count: nat, k: nat): H.Pair {
    H.Loops([if k > 4 then n.start0 else l.start[0], if k > 2 then n.start1 else l.start[1]],
            [if k > 3 then n.end0 else l.end[0], if k > 1 then n.end1 else l.end[1]],
            [if k > 5 then m else l.count[0], if k > 0 then count else l.count[1]])
  }

  /** The writes begin at word p, and this is the k-th instruction from there. */
  predicate WritingAt(n: N.Nest, m: nat, count: nat, l: H.Pair, p: nat, x: L.At, k: nat) {
    && N.Nested(n) && Settled(ForNest(n), l) && p + k <= n.start1
    && x.pc == A.Pc(p + k, false) && x.loops == Written(l, n, m, count, k)
  }

  lemma NothingWritten(l: H.Pair, n: N.Nest, m: nat, count: nat)
    ensures Written(l, n, m, count, 0) == l
  {
    var w := Written(l, n, m, count, 0);
    assert w.start == l.start && w.end == l.end && w.count == l.count;
  }

  lemma WriteStep(n: N.Nest, m: nat, count: nat, l: H.Pair, p: nat, x: L.At, k: nat, code: A.Code)
    requires WritingAt(n, m, count, l, p, x, k) && p + k < n.start1 && A.IsLong(code(x.pc))
    ensures WritingAt(n, m, count, l, p, L.After(x, L.Executes(SetupWrite(n, m, count, k)), code), k + 1)
  {
    assert forall i :: 0 <= i < 2 ==> !L.Last(x.loops, i, x.pc);
    var b := L.NextLoops(x.loops, x.pc, L.Executes(SetupWrite(n, m, count, k)));
    var w := Written(l, n, m, count, k + 1);
    assert b.start == w.start && b.end == w.end && b.count == w.count;
  }

  /** Both counters and both end addresses are 0, as after reset. */
  predicate Cleared(l: H.Pair) { l.count[0] == 0 && l.count[1] == 0 && l.end[0] == 0 && l.end[1] == 0 }

  /** While word p + 2 writes the outer start, the old one is at or below that word, and
      counter and end are already those of more than one iteration. */
  predicate StaleStart(l: H.Pair, p: nat, count: nat) { count > 1 && l.start[1] <= p + 2 }

  /** The controller's state at the k-th instruction. */
  function StateAt(l: H.Pair, p: nat, count: nat, k: nat): H.Fsm {
    if k > 2 && StaleStart(l, p, count) then H.DecodeHwloop else H.Decode
  }

  lemma WriteState(n: N.Nest, m: nat, count: nat, l: H.Pair, p: nat, x: L.At, k: nat, code: A.Code)
    requires WritingAt(n, m, count, l, p, x, k) && p + k < n.start1 && Cleared(l) && x.fsm == StateAt(l, p, count, k)
    ensures L.Out(x, L.Executes(SetupWrite(n, m, count, k))).next == StateAt(l, p, count, k + 1)
  {
  }

  /** `known`: whether the state is followed, too. */
  function Writing(n: N.Nest, m: nat, count: nat, l: H.Pair, p: nat, known: bool): (nat, L.At) -> bool {
    (k: nat, x: L.At) => WritingAt(n, m, count, l, p, x, k) && (known ==> x.fsm == StateAt(l, p, count, k))
  }

  predicate FromCleared(a: L.At) { Cleared(a.loops) && a.fsm == H.Decode }

  /** For its first j instructions before the nest the program writes like this. */
  ghost predicate Opens(prog: L.Program, n: N.Nest, m: nat, count: nat, j: nat) {
    forall k: nat, pc: A.Pc :: k < j && pc.index < n.start1 ==> prog(k, pc) == L.Executes(SetupWrite(n, m, count, k))
  }

  /** After j of them. */
  lemma WritesDone(n: N.Nest, m: nat, count: nat, a: L.At, p: nat, prog: L.Program, code: A.Code, j: nat)
    requires WritingAt(n, m, count, a.loops, p, a, 0) && p + j <= n.start1 && O.Uncompressed(code, p, p + j)
    requires Opens(prog, n, m, count, j)
    ensures Writing(n, m, count, a.loops, p, FromCleared(a))(j, L.Steps(a, prog, code, 0, j))
  {
    var inv := Writing(n, m, count, a.loops, p, FromCleared(a));
    var step, env := L.Stepper(prog, code), L.From(0);
    assert inv(0, a);
    forall k: nat, x: L.At | k < j && inv(k, x) ensures inv(k + 1, step(x, env(k))) {
      WriteStep(n, m, count, a.loops, p, x, k, code);
      if FromCleared(a) { WriteState(n, m, count, a.loops, p, x, k, code); }
    }
    Indexed(inv, a, step, env, j, j);
  }

  lemma {:induction false} LongWalk(code: A.Code, start: nat, end: nat, k: nat)
    requires O.Uncompressed(code, start, end) && start + k <= end < A.WORDS
    ensures A.WalkPc(code, A.Pc(start, false), k) == A.Pc(start + k, false)
  {
    if k > 0 { LongWalk(code, start, end, k - 1); }
  }

  lemma {:induction false} WordsBefore(n: N.Nest, code: A.Code, start: nat, j: nat)
    requires start + j <= n.start1 < A.WORDS && O.Uncompressed(code, start, n.start1)
    ensures BeforeFor(n.start1, code, A.Pc(start, false), j)
  {
    if j > 0 {
      WordsBefore(n, code, start, j - 1);
      LongWalk(code, start, n.start1, j - 1);
    }
  }

  lemma WriteIsHarmless(n: N.Nest, m: nat, count: nat, k: nat)
    requires N.Nested(n)
    ensures SetsUp(ForNest(n), L.Executes(SetupWrite(n, m, count, k))) && SetsUp(ForNest(n), L.Executes(N.SetInner(m)))
    ensures SetsUp(ForNest(n), L.Executes(L.NoWrite()))
  {
  }

  lemma DocumentedWrites(n: N.Nest, r: nat, m: nat, count: nat, j: nat)
    requires N.ResetBehind(n, r) && j >= 6
    ensures var prog := Documented(n, r, m, count);
      Opens(prog, n, m, count, j) && SetsUpUntil(ForNest(n), prog, j) && N.Resets(prog, j, r, m)
  {
    var prog := Documented(n, r, m, count);
    forall k: nat, pc | k < j ensures SetsUp(ForNest(n), prog(k, pc)) {
      WriteIsHarmless(n, m, count, k);
    }
    forall k: nat, pc | k >= j
      ensures prog(k, pc) == L.Executes(if pc == A.Pc(r, false) then N.SetInner(m) else L.NoWrite())
    {
    }
  }

  lemma DocumentedRegs(n: N.Nest, r: nat, m: nat, count: nat, a: L.At, p: nat, code: A.Code, j: nat)
    requires N.ResetBehind(n, r) && WritingAt(n, m, count, a.loops, p, a, 0) && p + j == n.start1 && j >= 6
    requires O.Uncompressed(code, p, n.start1)
    ensures var b := O.Start(a, Documented(n, r, m, count), code, j);
      b.loops == N.Regs(n, m, count) && (FromCleared(a) ==> b.fsm == StateAt(a.loops, p, count, j))
  {
    DocumentedWrites(n, r, m, count, j);
    WritesDone(n, m, count, a, p, Documented(n, r, m, count), code, j);
  }

  /** The documentation's example, for any nest and any counts, the writes in its order in
      six consecutive words, plain words behind them, whatever the registers held but end
      addresses inside or just before the nest: the nest is executed exactly. */
  lemma DocumentedIsReady(n: N.Nest, r: nat, m: nat, count: nat, a: L.At, p: nat, code: A.Code, j: nat)
    requires N.ResetBehind(n, r) && m > 0 && count > 0 && p + j == n.start1 && j >= 6
    requires Settled(ForNest(n), a.loops) && a.pc == A.Pc(p, false) && O.Uncompressed(code, p, n.end1)
    ensures N.Ready(n, r, m, count, a, Documented(n, r, m, count), code, j)
  {
    NothingWritten(a.loops, n, m, count);
    DocumentedWrites(n, r, m, count, j);
    DocumentedRegs(n, r, m, count, a, p, code, j);
    WordsBefore(n, code, p, j);
    LongWalk(code, p, n.start1, j);
    AnySetup(n, r, m, count, a, Documented(n, r, m, count), code, j);
  }

  /** From cleared registers the controller comes to the nest's start in DECODE_HWLOOP exactly
      if there is more than one outer iteration and the outer start register held the address
      of the word that writes it, or a lower one. */
  lemma StateAtStart(n: N.Nest, r: nat, m: nat, count: nat, a: L.At, p: nat, code: A.Code, j: nat)
    requires N.ResetBehind(n, r) && p + j == n.start1 && j >= 6
    requires FromCleared(a) && a.pc == A.Pc(p, false) && O.Uncompressed(code, p, n.start1)
    ensures O.Start(a, Documented(n, r, m, count), code, j).fsm == H.DecodeHwloop <==> StaleStart(a.loops, p, count)
  {
    NothingWritten(a.loops, n, m, count);
    DocumentedRegs(n, r, m, count, a, p, code, j);
  }

  /** The matrix addition with its first write at word 4. */
  function MatrixNest(): N.Nest { N.Nest(10, 13, 10, 15) }

  function Matrix(): L.Program { Documented(MatrixNest(), 13, 10, 10) }

  /** From cleared registers. */
  function MatrixStart(): L.At { L.At(A.Pc(4, false), H.Loops([0, 0], [0, 0], [0, 0]), H.Decode) }

  /** It is executed exactly, although the controller comes to it in DECODE_HWLOOP. */
  lemma MatrixAddition(code: A.Code)
    requires O.Uncompressed(code, 4, 15)
    ensures N.Ready(MatrixNest(), 13, 10, 10, MatrixStart(), Matrix(), code, 6)
    ensures O.Start(MatrixStart(), Matrix(), code, 6).fsm == H.DecodeHwloop
  {
    DocumentedIsReady(MatrixNest(), 13, 10, 10, MatrixStart(), 4, code, 6);
    StateAtStart(MatrixNest(), 13, 10, 10, MatrixStart(), 4, code, 6);
  }

  // --------------------------------------------------- a jump behind the first three writes

  /** The outer loop's three writes, then a jump, then nothing. */
  function Opening(n: N.Nest, count: nat, target: A.Pc): L.Program {
    (k: nat, pc: A.Pc) =>
      if k == 3 then L.JumpsTo(target) else L.Executes(if k < 3 then SetupWrite(n, 0, count, k) else L.NoWrite())
  }

  lemma OpeningWrites(n: N.Nest, count: nat, target: A.Pc)
    requires N.Nested(n)
    ensures var prog, quiet := Opening(n, count, target), S.Without(Opening(n, count, target), 3);
      && Opens(prog, n, 0, count, 3) && SetsUpUntil(ForNest(n), prog, 3)
      && Opens(quiet, n, 0, count, 3) && SetsUpUntil(ForNest(n), quiet, 5)
  {
    var prog, quiet := Opening(n, count, target), S.Without(Opening(n, count, target), 3);
    forall k: nat, pc | k < 5 ensures (k < 3 ==> SetsUp(ForNest(n), prog(k, pc))) && SetsUp(ForNest(n), quiet(k, pc)) {
      WriteIsHarmless(n, 0, count, k);
    }
  }

  lemma WordsAreCalm(n: N.Nest, a: L.At, p: nat, prog: L.Program, code: A.Code, j: nat)
    requires N.Nested(n) && Settled(ForNest(n), a.loops) && a.pc == A.Pc(p, false) && SetsUpUntil(ForNest(n), prog, j)
    requires p + j <= n.start1 && O.Uncompressed(code, p, p + j)
    ensures L.CalmFor(a, prog, code, 0, j)
  {
    var pcs := (t: nat) => A.Pc(p + t, false);
    SetupIsCalm(ForNest(n), a, prog, code, pcs, j);
  }

  /** What comes before the nest and is followed by an instruction there. */
  predicate StaysBefore(n: N.Nest, code: A.Code, pc: A.Pc) {
    pc.index < n.start1 && A.After(code, pc).index <= n.start1
  }

  /** In DECODE the jump is taken, and the instruction at its target follows. */
  lemma JumpFollows(b: L.At, n: N.Nest, prog: L.Program, code: A.Code, target: A.Pc)
    requires N.Nested(n) && Settled(ForNest(n), b.loops) && b.fsm == H.Decode && b.pc.index < n.start1
    requires prog(3, b.pc) == L.JumpsTo(target) && prog(4, target) == L.Executes(L.NoWrite())
    requires StaysBefore(n, code, target)
    ensures L.SoundFor(b, prog, code, 3, 2) && L.Steps(b, prog, code, 3, 1).pc == target
  {
    var c := L.After(b, prog(3, b.pc), code);
    SettledIsCalm(ForNest(n), b.loops, b.pc);
    SettledIsCalm(ForNest(n), c.loops, c.pc);
    assert forall i :: 0 <= i < 2 ==> !L.Last(b.loops, i, b.pc);
    assert forall i :: 0 <= i < 2 ==> !L.Again(c.loops, i, c.pc);
    assert L.Sound(b, prog(3, b.pc), code);
    SetupStep(ForNest(n), c, prog(4, c.pc), code);
    L.CalmStep(c, prog(4, c.pc), code);
    var step, ok := L.Stepper(prog, code), L.Ok(prog, code);
    assert Run(b, step, L.From(3), 0) == b && Kept(b, step, ok, L.From(3), 0);
    assert Run(b, step, L.From(3), 1) == c && Kept(b, step, ok, L.From(3), 1);
  }

  lemma JumpReached(n: N.Nest, a: L.At, p: nat, count: nat, prog: L.Program, code: A.Code, j: nat)
    requires N.Nested(n) && FromCleared(a) && a.pc == A.Pc(p, false) && p + 5 <= n.start1 && j == 3
    requires O.Uncompressed(code, p, p + 5) && !StaleStart(a.loops, p, count)
    requires Opens(prog, n, 0, count, j) && SetsUpUntil(ForNest(n), prog, j)
    ensures L.SoundFor(a, prog, code, 0, j)
    ensures var b := L.Steps(a, prog, code, 0, j);
      Settled(ForNest(n), b.loops) && b.fsm == H.Decode && b.pc.index < n.start1
  {
    NothingWritten(a.loops, n, 0, count);
    WordsAreCalm(n, a, p, prog, code, j);
    L.CalmWalk(a, prog, code, 0, j);
    WritesDone(n, 0, count, a, p, prog, code, j);
  }

  lemma JumpTaken(n: N.Nest, a: L.At, p: nat, count: nat, target: A.Pc, code: A.Code)
    requires N.Nested(n) && FromCleared(a) && a.pc == A.Pc(p, false) && p + 5 <= n.start1
    requires O.Uncompressed(code, p, p + 5) && StaysBefore(n, code, target) && !StaleStart(a.loops, p, count)
    ensures var prog := Opening(n, count, target);
      L.SoundFor(a, prog, code, 0, 5) && L.Trace(a, prog, code, 0, 5)[4] == A.At(code, target)
  {
    var prog := Opening(n, count, target);
    OpeningWrites(n, count, target);
    JumpReached(n, a, p, count, prog, code, 3);
    JumpFollows(L.Steps(a, prog, code, 0, 3), n, prog, code, target);
    L.SoundSplit(a, prog, code, 0, 3, 2);
    L.StepsSplit(a, prog, code, 0, 3, 3, 1);
    L.NextStep(a, prog, code, 0, 4);
  }

  lemma JumpMeetsHwloop(n: N.Nest, a: L.At, p: nat, count: nat, quiet: L.Program, code: A.Code)
    requires N.Nested(n) && FromCleared(a) && a.pc == A.Pc(p, false) && p + 5 <= n.start1
    requires O.Uncompressed(code, p, p + 5) && StaleStart(a.loops, p, count) && Opens(quiet, n, 0, count, 3)
    ensures S.MeetsHwloop(a, quiet, code, 3)
  {
    NothingWritten(a.loops, n, 0, count);
    WritesDone(n, 0, count, a, p, quiet, code, 3);
  }

  lemma WordsWalk(n: N.Nest, a: L.At, p: nat, quiet: L.Program, code: A.Code, j: nat)
    requires N.Nested(n) && Settled(ForNest(n), a.loops) && a.pc == A.Pc(p, false) && p + j <= n.start1
    requires O.Uncompressed(code, p, p + j) && SetsUpUntil(ForNest(n), quiet, j)
    ensures L.SoundFor(a, quiet, code, 0, j) && L.Trace(a, quiet, code, 0, j) == A.Walk(code, a.pc, j)
  {
    WordsAreCalm(n, a, p, quiet, code, j);
    L.CalmWalk(a, quiet, code, 0, j);
  }

  lemma WordOfWalk(code: A.Code, p: nat, j: nat)
    requires p + j < A.WORDS && O.Uncompressed(code, p, p + j + 1)
    ensures A.Walk(code, A.Pc(p, false), j + 1)[j] == A.At(code, A.Pc(p + j, false))
  {
    LongWalk(code, p, p + j, j);
  }

  lemma NextIs(retired: seq<A.Insn>, l: H.Pair, a: L.At, prog: L.Program, code: A.Code, m: nat, last: A.Insn)
    requires S.Agrees(retired, l, a, prog, code, m + 1) && L.Trace(a, prog, code, 0, m + 1)[m] == last
    ensures |retired| > m ==> retired[m] == last
  {
    if |retired| > m + 1 { assert retired[..m + 1][m] == retired[m]; }
  }

  lemma PassedRun(s: S.Sys, env: nat -> S.Env, n: N.Nest, a: L.At, p: nat, count: nat, target: A.Pc, code: A.Code,
                  k: nat, m: nat)
    requires S.Entering(s, a, code) && N.Nested(n) && FromCleared(a) && a.pc == A.Pc(p, false) && p + 5 <= n.start1
    requires O.Uncompressed(code, p, p + 5) && StaleStart(a.loops, p, count) && m == 4
    ensures var t := Run(s, S.Stepper(code, Opening(n, count, target)), env, k);
      |t.retired| > m ==> t.retired[m] == A.At(code, A.Pc(p + m, false))
  {
    var prog, quiet := Opening(n, count, target), S.Without(Opening(n, count, target), 3);
    var t := Run(s, S.Stepper(code, prog), env, k);
    OpeningWrites(n, count, target);
    JumpMeetsHwloop(n, a, p, count, quiet, code);
    WordsWalk(n, a, p, quiet, code, m + 1);
    WordOfWalk(code, p, m);
    S.JumpNotTaken(s, env, a, prog, code, 3, m + 1, k);
    NextIs(t.retired, t.loops, a, quiet, code, m, A.At(code, A.Pc(p + m, false)));
  }

  lemma TakenRun(s: S.Sys, env: nat -> S.Env, n: N.Nest, a: L.At, p: nat, count: nat, target: A.Pc, code: A.Code,
                 k: nat, m: nat)
    requires S.Entering(s, a, code) && N.Nested(n) && FromCleared(a) && a.pc == A.Pc(p, false) && p + 5 <= n.start1
    requires O.Uncompressed(code, p, p + 5) && StaysBefore(n, code, target) && !StaleStart(a.loops, p, count) && m == 4
    ensures var t := Run(s, S.Stepper(code, Opening(n, count, target)), env, k);
      |t.retired| > m ==> t.retired[m] == A.At(code, target)
  {
    var prog := Opening(n, count, target);
    var t := Run(s, S.Stepper(code, prog), env, k);
    JumpTaken(n, a, p, count, target, code);
    S.RunsInOrder(s, env, a, prog, code, m + 1, k);
    NextIs(t.retired, t.loops, a, prog, code, m, A.At(code, target));
  }

  /** The outer loop's counter, end and start written in the documented order, from cleared
      registers, and then a jump before the nest: under every pattern of stalls and fetch
      gaps the fifth instruction to leave ID is the one at the jump's target, exactly unless
      the start register held the address of the word that writes it or a lower one, and
      there is more than one iteration; then it is the one behind the jump. */
  lemma JumpAfterSetup(s: S.Sys, env: nat -> S.Env, n: N.Nest, a: L.At, p: nat, count: nat, target: A.Pc, code: A.Code,
                       k: nat)
    requires S.Entering(s, a, code) && N.Nested(n) && FromCleared(a) && a.pc == A.Pc(p, false) && p + 5 <= n.start1
    requires O.Uncompressed(code, p, p + 5) && StaysBefore(n, code, target)
    ensures var t := Run(s, S.Stepper(code, Opening(n, count, target)), env, k);
      |t.retired| > 4 ==>
        t.retired[4] == A.At(code, if StaleStart(a.loops, p, count) then A.Pc(p + 4, false) else target)
  {
    if StaleStart(a.loops, p, count) {
      PassedRun(s, env, n, a, p, count, target, code, k, 4);
    } else {
      TakenRun(s, env, n, a, p, count, target, code, k, 4);
    }
  }
}
