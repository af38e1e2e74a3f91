/** The IF and ID stages around the loop registers, the controller and the aligner, and why
    they follow the promised order: for one loop or two, for code of both instruction
    lengths, for writes of loop registers and for jumps. */
module LoopStages {
  import A = Aligner
  import H = HwLoop
  import L = LoopOrder
  import opened Runs

  /** One cycle's choices: whether the next word is there, whether ID can leave, and what
      the data lines carry. */
  datatype Env = Env(avail: bool, idReady: bool, junk: A.Word)

  /** `fetch` is the prefetcher's next word; after a loop jump that word is still
      delivered, then the stream goes on at `redirect`. `retired` lists what left ID. */
  datatype Sys = Sys(ctrl: H.Ctrl, loops: H.Pair, idValid: bool, id: A.Insn, al: A.Regs,
                     fetch: nat, redirect: A.Option<nat>, retired: seq<A.Insn>)

  /** What the instruction in ID does. */
  function ActionOf(s: Sys, prog: L.Program): L.Action { prog(|s.retired|, s.id.pc) }

  function Outputs(s: Sys, act: L.Action): H.Out { H.Control(s.ctrl, s.loops, s.idValid, s.id.pc, L.FlowOf(act)) }

  function AlignerIn(s: Sys, o: H.Out, e: Env, code: A.Code): A.In {
    var fetchValid := e.avail && !o.pcSet;
    A.In(fetchValid, fetchValid && e.idReady, if fetchValid then A.Fetched(code, s.fetch) else e.junk,
         o.pcSet, o.target, H.LoopJump(s.ctrl, o), o.target)
  }

  predicate Leaves(s: Sys, e: Env) { s.idValid && e.idReady }

  /** One cycle with this instruction in ID. */
  function TickWith(s: Sys, e: Env, code: A.Code, act: L.Action): Sys {
    var o := Outputs(s, act);
    var i := AlignerIn(s, o, e, code);
    var c := A.Combinational(s.al, i);
    var jump := H.LoopJump(s.ctrl, o);
    var accept := i.ifValid && c.valid;
    var pop := i.ifValid && c.ready;
    Sys(H.NextCtrl(o, e.idReady),
        H.NextLoops(s.loops, if Leaves(s, e) then L.WriteOf(act) else L.NoWrite(), [o.dec0, o.dec1], Leaves(s, e)),
        if accept then true else s.idValid && !e.idReady,
        if accept then A.Entering(s.al.pc, c.instr) else s.id,
        A.NextRegs(s.al, i),
        if o.pcSet then o.target.index
        else if !pop then s.fetch
        else if jump then o.target.index
        else if s.redirect.Some? then s.redirect.value
        else A.NextWord(s.fetch),
        if o.pcSet || pop then A.None else if jump then A.Some(o.target.index) else s.redirect,
        if Leaves(s, e) then s.retired + [s.id] else s.retired)
  }

  function Tick(s: Sys, e: Env, code: A.Code, prog: L.Program): Sys { TickWith(s, e, code, ActionOf(s, prog)) }

  // ------------------------------------------------------------ aligner and prefetcher

  /** How the aligner's state relates pc, the saved halfword and the prefetcher's next word. */
  predicate Positioned(r: A.Regs, fetch: nat, code: A.Code) { A.Placed(r.(hwlpUpdatePc := false), fetch, code) }

  /** The instruction at pc fills a word. */
  predicate FillsWord(pc: A.Pc, code: A.Code) { !pc.upper && A.IsLong(code(pc)) }

  /** The next word is a whole instruction and nothing is saved. */
  predicate Straight(r: A.Regs, code: A.Code) { r.state == A.Aligned32 && FillsWord(r.pc, code) }

  /** The aligner stands at the prefetcher's next word and holds any pending redirection. */
  predicate InLockStep(s: Sys, code: A.Code) {
    && Positioned(s.al, s.fetch, code)
    && s.al.hwlpUpdatePc == s.redirect.Some?
    && (s.redirect.Some? ==> s.al.hwlpAddr == A.Pc(s.redirect.value, false) && Straight(s.al, code))
  }

  /** A branch to an upper half stores the first half of a 32-bit instruction. */
  predicate Storing(r: A.Regs, code: A.Code) { r.state == A.BranchMisaligned && A.IsLong(code(r.pc)) }

  predicate Takes(s: Sys, o: H.Out, e: Env) { e.avail && e.idReady && !o.pcSet }

  /** What one cycle does. */
  predicate Moves(s: Sys, t: Sys, e: Env, act: L.Action, code: A.Code) {
    var o := Outputs(s, act);
    var jump := H.LoopJump(s.ctrl, o);
    var enters := Takes(s, o, e) && !Storing(s.al, code);
    && t.ctrl == H.NextCtrl(o, e.idReady)
    && t.loops == H.NextLoops(s.loops, if Leaves(s, e) then L.WriteOf(act) else L.NoWrite(), [o.dec0, o.dec1],
                              Leaves(s, e))
    && t.retired == (if Leaves(s, e) then s.retired + [s.id] else s.retired)
    && t.idValid == (enters || (s.idValid && !e.idReady))
    && t.id == (if enters then A.At(code, s.al.pc) else s.id)
    && t.al.pc == (if o.pcSet then o.target
                   else if !enters then s.al.pc
                   else if jump then o.target
                   else if s.redirect.Some? then A.Pc(s.redirect.value, false)
                   else A.After(code, s.al.pc))
    && t.redirect == (if o.pcSet || enters then A.None
                      else if jump && !Takes(s, o, e) then A.Some(o.target.index) else s.redirect)
    && (if o.pcSet then true else if enters then FillsWord(s.al.pc, code) ==> t.al.state == A.Aligned32
        else !Takes(s, o, e) ==> t.al.state == s.al.state)
  }

  /** A loop jump reaches an aligner that stands at a whole word with nothing saved. */
  predicate JumpFits(s: Sys, act: L.Action, code: A.Code) {
    var o := Outputs(s, act);
    H.LoopJump(s.ctrl, o) ==> Straight(s.al, code) && !o.target.upper && !o.pcSet && s.redirect == A.None
  }

  lemma LockStep(s: Sys, e: Env, code: A.Code, act: L.Action)
    requires InLockStep(s, code) && JumpFits(s, act, code)
    ensures InLockStep(TickWith(s, e, code, act), code) && Moves(s, TickWith(s, e, code, act), e, act, code)
  {
  }

  // ---------------------------------------------------------------- the invariant

  /** The instruction branches from DECODE: a jump, or a jump back that was not announced. */
  predicate Branching(a: L.At, act: L.Action) {
    a.fsm == H.Decode && (act.JumpsTo? || L.GoesBack(a.loops, a.pc))
  }

  /** The instruction goes back as it was announced. */
  predicate GoingBack(a: L.At) { a.fsm == H.DecodeHwloop && L.GoesBack(a.loops, a.pc) }

  /** Where the stages stand with the instruction of a in ID. In its first cycle there the
      controller is in the state of a, later in the next one. */
  predicate Holding(s: Sys, a: L.At, act: L.Action, code: A.Code) {
    var o, b := L.Out(a, act), L.After(a, act, code);
    && s.id == A.At(code, a.pc)
    && (s.ctrl.fsm == a.fsm || s.ctrl.fsm == o.next)
    && (s.ctrl.jumpDone ==> Branching(a, act))
    && (Branching(a, act) && act.Executes? ==> s.ctrl.fsm == if s.ctrl.jumpDone then H.DecodeHwloop else H.Decode)
    && s.al.pc == (if Branching(a, act) && !s.ctrl.jumpDone then A.After(code, a.pc) else b.pc)
    && s.redirect == (if o.end4 && s.ctrl.end4 then A.Some(o.target.index) else A.None)
    && (s.ctrl.end4 ==> o.end4 || GoingBack(a))
    && (FillsWord(a.pc, code) && !s.ctrl.jumpDone ==> s.al.state == A.Aligned32)
  }

  /** With ID empty and the instruction of a next. */
  predicate Awaiting(s: Sys, a: L.At) {
    && s.ctrl.fsm == a.fsm && !s.ctrl.jumpDone && s.al.pc == a.pc
    && s.redirect == (if GoingBack(a) then A.Some(L.BackTo(a.loops, a.pc)) else A.None)
    && (s.ctrl.end4 ==> GoingBack(a))
  }

  predicate Inv(s: Sys, a: L.At, act: L.Action, code: A.Code) {
    && InLockStep(s, code) && s.loops == a.loops
    && if s.idValid then Holding(s, a, act, code) else Awaiting(s, a)
  }

  /** The controller's outputs in every cycle the instruction spends in ID. */
  lemma HeldControl(s: Sys, a: L.At, act: L.Action, code: A.Code)
    requires s.idValid && Inv(s, a, act, code) && L.Sound(a, act, code)
    ensures var o, now, b := L.Out(a, act), Outputs(s, act), L.After(a, act, code);
      && now.next == o.next && now.end4 == o.end4 && (o.end4 ==> now.target == o.target && a.fsm == H.DecodeHwloop)
      && now.pcSet == (Branching(a, act) && !s.ctrl.jumpDone) && (now.pcSet ==> now.target == b.pc)
      && now.jumpDone == Branching(a, act)
      && now.dec0 == (act.Executes? && L.Last(a.loops, 0, a.pc))
      && now.dec1 == (act.Executes? && L.Last(a.loops, 1, a.pc))
  {
  }

  lemma EmptyControl(s: Sys, act: L.Action)
    requires !s.idValid
    ensures var now := Outputs(s, act);
      now.next == s.ctrl.fsm && !now.pcSet && !now.end4 && now.jumpDone == s.ctrl.jumpDone
  {
  }

  lemma NothingWritten(l: H.Pair, dec: seq<bool>)
    requires |dec| == 2
    ensures H.NextLoops(l, L.NoWrite(), dec, false) == l
    ensures H.NextLoops(l, L.NoWrite(), [false, false], true) == l
  {
    assert H.NextLoops(l, L.NoWrite(), dec, false).count == l.count;
    assert H.NextLoops(l, L.NoWrite(), [false, false], true).count == l.count;
  }

  /** The aligner can take every jump back that is announced. */
  lemma JumpsFit(s: Sys, a: L.At, act: L.Action, code: A.Code)
    requires Inv(s, a, act, code) && L.Sound(a, act, code)
    ensures JumpFits(s, act, code)
  {
    if s.idValid { HeldControl(s, a, act, code); }
  }

  /** The instruction stays in ID. */
  lemma StallStep(s: Sys, t: Sys, e: Env, a: L.At, act: L.Action, code: A.Code)
    requires Inv(s, a, act, code) && L.Sound(a, act, code) && s.idValid && !e.idReady
    requires InLockStep(t, code) && Moves(s, t, e, act, code)
    ensures t.idValid && Inv(t, a, act, code)
  {
    HeldControl(s, a, act, code);
    NothingWritten(s.loops, [Outputs(s, act).dec0, Outputs(s, act).dec1]);
  }

  /** ID is empty. */
  lemma EmptyStep(s: Sys, t: Sys, e: Env, a: L.At, act: L.Action, code: A.Code)
    requires Inv(s, a, act, code) && L.Sound(a, act, code) && !s.idValid
    requires InLockStep(t, code) && Moves(s, t, e, act, code)
    ensures Inv(t, a, act, code)
  {
    EmptyControl(s, act);
    NothingWritten(s.loops, [Outputs(s, act).dec0, Outputs(s, act).dec1]);
  }

  /** It leaves. */
  lemma LeaveStep(s: Sys, t: Sys, e: Env, a: L.At, act: L.Action, next: L.Action, code: A.Code)
    requires Inv(s, a, act, code) && L.Sound(a, act, code) && s.idValid && e.idReady
    requires L.Sound(L.After(a, act, code), next, code)
    requires InLockStep(t, code) && Moves(s, t, e, act, code)
    ensures Inv(t, L.After(a, act, code), next, code)
  {
    HeldControl(s, a, act, code);
    NothingWritten(s.loops, [false, false]);
  }

  /** While ID is empty it does not matter what its instruction would do. */
  lemma EmptyTick(s: Sys, e: Env, code: A.Code, x: L.Action, y: L.Action)
    requires !s.idValid
    ensures TickWith(s, e, code, x) == TickWith(s, e, code, y)
  {
  }

  // ------------------------------------------------------------------------ runs

  /** The next instruction of the order. */
  function Due(s: Sys, from: L.At, prog: L.Program, code: A.Code): L.At { L.Steps(from, prog, code, 0, |s.retired|) }

  function DueAction(s: Sys, from: L.At, prog: L.Program, code: A.Code): L.Action {
    prog(|s.retired|, Due(s, from, prog, code).pc)
  }

  /** What left ID is the order, and the stages stand at its next instruction. */
  predicate Following(s: Sys, from: L.At, prog: L.Program, code: A.Code) {
    && s.retired == L.Trace(from, prog, code, 0, |s.retired|)
    && Inv(s, Due(s, from, prog, code), DueAction(s, from, prog, code), code)
  }

  /** The first m instructions that leave ID are those of the order, and so are the loop
      registers up to then. */
  predicate OnOrder(s: Sys, from: L.At, prog: L.Program, code: A.Code, m: nat) {
    if |s.retired| < m then Following(s, from, prog, code)
    else s.retired[..m] == L.Trace(from, prog, code, 0, m)
         && (|s.retired| == m ==> s.loops == L.Steps(from, prog, code, 0, m).loops)
  }

  lemma DueSound(s: Sys, from: L.At, prog: L.Program, code: A.Code, m: nat)
    requires L.SoundFor(from, prog, code, 0, m) && |s.retired| < m
    ensures L.Sound(Due(s, from, prog, code), DueAction(s, from, prog, code), code)
  {
    KeptAt(from, L.Stepper(prog, code), L.Ok(prog, code), L.From(0), m, |s.retired|);
  }

  /** The cycle as the order sees it. */
  lemma DueTick(s: Sys, e: Env, from: L.At, prog: L.Program, code: A.Code)
    requires Following(s, from, prog, code) && L.Sound(Due(s, from, prog, code), DueAction(s, from, prog, code), code)
    ensures var t, act := Tick(s, e, code, prog), DueAction(s, from, prog, code);
      JumpFits(s, act, code) && t == TickWith(s, e, code, act) && InLockStep(t, code) && Moves(s, t, e, act, code)
  {
    var a, act := Due(s, from, prog, code), DueAction(s, from, prog, code);
    JumpsFit(s, a, act, code);
    LockStep(s, e, code, act);
    if !s.idValid { EmptyTick(s, e, code, act, ActionOf(s, prog)); }
  }

  lemma FollowingStays(s: Sys, e: Env, from: L.At, prog: L.Program, code: A.Code)
    requires Following(s, from, prog, code) && L.Sound(Due(s, from, prog, code), DueAction(s, from, prog, code), code)
    requires !Leaves(s, e)
    ensures Following(Tick(s, e, code, prog), from, prog, code)
  {
    var a, act, t := Due(s, from, prog, code), DueAction(s, from, prog, code), Tick(s, e, code, prog);
    DueTick(s, e, from, prog, code);
    if s.idValid { StallStep(s, t, e, a, act, code); } else { EmptyStep(s, t, e, a, act, code); }
  }

  /** What leaving adds to the order. */
  lemma LeavingAdds(s: Sys, e: Env, from: L.At, prog: L.Program, code: A.Code)
    requires Following(s, from, prog, code) && L.Sound(Due(s, from, prog, code), DueAction(s, from, prog, code), code)
    requires Leaves(s, e)
    ensures var t := Tick(s, e, code, prog);
      && |t.retired| == |s.retired| + 1 && t.retired == L.Trace(from, prog, code, 0, |t.retired|)
      && Due(t, from, prog, code) == L.After(Due(s, from, prog, code), DueAction(s, from, prog, code), code)
      && t.loops == Due(t, from, prog, code).loops
  {
    var a, act := Due(s, from, prog, code), DueAction(s, from, prog, code);
    DueTick(s, e, from, prog, code);
    HeldControl(s, a, act, code);
    NothingWritten(s.loops, [false, false]);
    L.NextStep(from, prog, code, 0, |s.retired|);
  }

  lemma FollowingLeaves(s: Sys, e: Env, from: L.At, prog: L.Program, code: A.Code)
    requires Following(s, from, prog, code) && L.Sound(Due(s, from, prog, code), DueAction(s, from, prog, code), code)
    requires Leaves(s, e)
    requires var t := Tick(s, e, code, prog); L.Sound(Due(t, from, prog, code), DueAction(t, from, prog, code), code)
    ensures Following(Tick(s, e, code, prog), from, prog, code)
  {
    var a, act, t := Due(s, from, prog, code), DueAction(s, from, prog, code), Tick(s, e, code, prog);
    DueTick(s, e, from, prog, code);
    LeavingAdds(s, e, from, prog, code);
    LeaveStep(s, t, e, a, act, DueAction(t, from, prog, code), code);
  }

  /** Beyond the order. */
  lemma TailStep(s: Sys, e: Env, code: A.Code, act: L.Action, m: nat)
    requires |s.retired| >= m
    ensures var t := TickWith(s, e, code, act);
      && |t.retired| >= m && t.retired[..m] == s.retired[..m]
      && (|t.retired| == m ==> |s.retired| == m && t.loops == s.loops)
  {
    if !Leaves(s, e) { NothingWritten(s.loops, [Outputs(s, act).dec0, Outputs(s, act).dec1]); }
  }

  lemma OnOrderStep(s: Sys, e: Env, from: L.At, prog: L.Program, code: A.Code, m: nat)
    requires OnOrder(s, from, prog, code, m) && L.SoundFor(from, prog, code, 0, m)
    ensures OnOrder(Tick(s, e, code, prog), from, prog, code, m)
  {
    if |s.retired| >= m {
      TailStep(s, e, code, ActionOf(s, prog), m);
    } else {
      DueSound(s, from, prog, code, m);
      if Leaves(s, e) {
        var t := Tick(s, e, code, prog);
        LeavingAdds(s, e, from, prog, code);
        if |t.retired| < m {
          DueSound(t, from, prog, code, m);
          FollowingLeaves(s, e, from, prog, code);
        }
      } else {
        FollowingStays(s, e, from, prog, code);
      }
    }
  }

  function Stepper(code: A.Code, prog: L.Program): (Sys, Env) -> Sys { (s: Sys, e: Env) => Tick(s, e, code, prog) }

  /** ID holds the instruction of a, just entered, or is empty and IF stands there; nothing
      is announced or left over, and no iteration is about to end. */
  predicate Entering(s: Sys, a: L.At, code: A.Code) {
    && InLockStep(s, code) && s.redirect == A.None && s.retired == [] && s.loops == a.loops
    && s.ctrl == H.Ctrl(a.fsm, false, false) && L.Calm(a.loops, a.pc)
    && (if s.idValid then s.id == A.At(code, a.pc) && s.al.pc == A.After(code, a.pc)
                          && (FillsWord(a.pc, code) ==> s.al.state == A.Aligned32)
        else s.al.pc == a.pc)
  }

  lemma EnteringFollows(s: Sys, a: L.At, prog: L.Program, code: A.Code)
    requires Entering(s, a, code) && L.Sound(a, prog(0, a.pc), code)
    ensures Following(s, a, prog, code)
  {
    assert forall i :: 0 <= i < 2 ==> !L.Again(a.loops, i, a.pc);
  }

  lemma EnteringOnOrder(s: Sys, a: L.At, prog: L.Program, code: A.Code, m: nat)
    requires Entering(s, a, code) && L.SoundFor(a, prog, code, 0, m)
    ensures OnOrder(s, a, prog, code, m)
  {
    if m > 0 {
      KeptAt(a, L.Stepper(prog, code), L.Ok(prog, code), L.From(0), m, 0);
      EnteringFollows(s, a, prog, code);
    }
  }

  /** Up to m instructions have left ID, those of the order, and the loop registers are the
      order's; or more have left, and the first m are those of the order. */
  predicate Agrees(retired: seq<A.Insn>, l: H.Pair, from: L.At, prog: L.Program, code: A.Code, m: nat) {
    if |retired| <= m then
      retired == L.Trace(from, prog, code, 0, |retired|) && l == L.Steps(from, prog, code, 0, |retired|).loops
    else retired[..m] == L.Trace(from, prog, code, 0, m)
  }

  lemma OnOrderAgrees(t: Sys, from: L.At, prog: L.Program, code: A.Code, m: nat)
    requires OnOrder(t, from, prog, code, m)
    ensures Agrees(t.retired, t.loops, from, prog, code, m)
  {
    if |t.retired| == m { assert t.retired[..m] == t.retired; }
  }

  lemma OnOrderRun(s: Sys, env: nat -> Env, from: L.At, prog: L.Program, code: A.Code, m: nat, n: nat)
    requires Entering(s, from, code) && L.SoundFor(from, prog, code, 0, m)
    ensures OnOrder(Run(s, Stepper(code, prog), env, n), from, prog, code, m)
  {
    EnteringOnOrder(s, from, prog, code, m);
    var step := Stepper(code, prog);
    forall x, e | OnOrder(x, from, prog, code, m) ensures OnOrder(step(x, e), from, prog, code, m) {
      OnOrderStep(x, e, from, prog, code, m);
    }
    Always((x: Sys) => OnOrder(x, from, prog, code, m), s, step, env, n);
  }

  /** Under every pattern of stalls and fetch gaps: as far as the order is sound, what leaves
      ID is the promised order, instruction by instruction, and the loop registers are the
      order's. */
  lemma RunsInOrder(s: Sys, env: nat -> Env, from: L.At, prog: L.Program, code: A.Code, m: nat, n: nat)
    requires Entering(s, from, code) && L.SoundFor(from, prog, code, 0, m)
    ensures var t := Run(s, Stepper(code, prog), env, n); Agrees(t.retired, t.loops, from, prog, code, m)
  {
    OnOrderRun(s, env, from, prog, code, m, n);
    OnOrderAgrees(Run(s, Stepper(code, prog), env, n), from, prog, code, m);
  }

  /** A loop jump never reaches the aligner while it holds an earlier one. */
  lemma NoJumpWhilePending(s: Sys, env: nat -> Env, from: L.At, prog: L.Program, code: A.Code, m: nat, n: nat)
    requires Entering(s, from, code) && L.SoundFor(from, prog, code, 0, m)
    ensures var t := Run(s, Stepper(code, prog), env, n);
      |t.retired| < m ==> !(H.LoopJump(t.ctrl, Outputs(t, ActionOf(t, prog))) && t.al.hwlpUpdatePc)
  {
    var t := Run(s, Stepper(code, prog), env, n);
    OnOrderRun(s, env, from, prog, code, m, n);
    if |t.retired| < m {
      DueSound(t, from, prog, code, m);
      JumpsFit(t, Due(t, from, prog, code), DueAction(t, from, prog, code), code);
    }
  }

  // --------------------------------------------------------------------- jumps not taken

  /** The program with the k-th instruction doing nothing. */
  function Without(prog: L.Program, k: nat): L.Program {
    (i: nat, pc: A.Pc) => if i == k then L.Executes(L.NoWrite()) else prog(i, pc)
  }

  /** DECODE_HWLOOP knows no jumps. */
  lemma JumpIgnored(s: Sys, e: Env, code: A.Code, target: A.Pc)
    requires s.idValid ==> s.ctrl.fsm == H.DecodeHwloop
    ensures TickWith(s, e, code, L.JumpsTo(target)) == TickWith(s, e, code, L.Executes(L.NoWrite()))
  {
  }

  /** The k-th instruction meets DECODE_HWLOOP and leaves it in that state. */
  predicate MeetsHwloop(from: L.At, prog: L.Program, code: A.Code, k: nat) {
    var a := L.Steps(from, prog, code, 0, k);
    a.fsm == H.DecodeHwloop && L.Out(a, L.Executes(L.NoWrite())).next == H.DecodeHwloop
  }

  /** So the cycle is the same as if the jump did nothing. */
  lemma SameTick(s: Sys, e: Env, from: L.At, prog: L.Program, code: A.Code, k: nat)
    requires Following(s, from, Without(prog, k), code) && MeetsHwloop(from, Without(prog, k), code, k)
    requires forall pc :: prog(k, pc).JumpsTo?
    ensures Tick(s, e, code, prog) == Tick(s, e, code, Without(prog, k))
  {
    if |s.retired| == k { JumpIgnored(s, e, code, prog(k, s.id.pc).target); }
  }

  lemma WithoutStep(s: Sys, e: Env, from: L.At, prog: L.Program, code: A.Code, k: nat, m: nat)
    requires OnOrder(s, from, Without(prog, k), code, m) && L.SoundFor(from, Without(prog, k), code, 0, m)
    requires MeetsHwloop(from, Without(prog, k), code, k) && forall pc :: prog(k, pc).JumpsTo?
    ensures OnOrder(Tick(s, e, code, prog), from, Without(prog, k), code, m)
  {
    if |s.retired| < m {
      SameTick(s, e, from, prog, code, k);
      OnOrderStep(s, e, from, Without(prog, k), code, m);
    } else {
      TailStep(s, e, code, ActionOf(s, prog), m);
    }
  }

  /** A jump that meets the controller in DECODE_HWLOOP is not taken: under every pattern of
      stalls and fetch gaps what leaves ID is the order of the program in which it does
      nothing. */
  lemma JumpNotTaken(s: Sys, env: nat -> Env, from: L.At, prog: L.Program, code: A.Code, k: nat, m: nat, n: nat)
    requires Entering(s, from, code) && L.SoundFor(from, Without(prog, k), code, 0, m)
    requires MeetsHwloop(from, Without(prog, k), code, k) && forall pc :: prog(k, pc).JumpsTo?
    ensures var t := Run(s, Stepper(code, prog), env, n);
      Agrees(t.retired, t.loops, from, Without(prog, k), code, m)
  {
    var quiet, step := Without(prog, k), Stepper(code, prog);
    EnteringOnOrder(s, from, quiet, code, m);
    forall x, e | OnOrder(x, from, quiet, code, m) ensures OnOrder(step(x, e), from, quiet, code, m) {
      WithoutStep(x, e, from, prog, code, k, m);
    }
    Always((x: Sys) => OnOrder(x, from, quiet, code, m), s, step, env, n);
    OnOrderAgrees(Run(s, step, env, n), from, quiet, code, m);
  }

  // ----------------------------------------------------------------- lost cycles

  /** With a word available and no stall ID is filled again at once, with the order's next
      instruction, exactly unless the controller branches or the aligner only stores the
      first half of a branch target. */
  lemma ZeroOverhead(s: Sys, e: Env, a: L.At, act: L.Action, code: A.Code)
    requires Inv(s, a, act, code) && L.Sound(a, act, code) && e.avail && e.idReady
    ensures var t := TickWith(s, e, code, act);
      && (t.idValid <==> !(s.idValid && Branching(a, act) && !s.ctrl.jumpDone) && !Storing(s.al, code))
      && (t.idValid ==> t.id == A.At(code, if s.idValid then L.After(a, act, code).pc else a.pc))
  {
    JumpsFit(s, a, act, code);
    LockStep(s, e, code, act);
    if s.idValid { HeldControl(s, a, act, code); } else { EmptyControl(s, act); }
  }

  /** ID is empty after a cycle with a word available and no stall. */
  predicate CycleLost(s: Sys, env: nat -> Env, code: A.Code, prog: L.Program, n: nat) {
    env(n).avail && env(n).idReady && !Run(s, Stepper(code, prog), env, n + 1).idValid
  }

  /** A program without jumps. */
  ghost predicate JumpFree(prog: L.Program) { forall k: nat, pc :: prog(k, pc).Executes? }

  /** Every step of the order is sound. */
  ghost predicate AllSound(a: L.At, prog: L.Program, code: A.Code) { forall m: nat :: L.SoundFor(a, prog, code, 0, m) }

  /** The run follows the order for ever, and the aligner never has to store first. */
  predicate Flows(s: Sys, from: L.At, prog: L.Program, code: A.Code) {
    Following(s, from, prog, code) && s.al.state != A.BranchMisaligned
  }

  lemma NeverStores(s: Sys, e: Env, code: A.Code, act: L.Action)
    requires act.Executes? && s.al.state != A.BranchMisaligned
    ensures TickWith(s, e, code, act).al.state != A.BranchMisaligned
  {
  }

  lemma RetiredGrows(s: Sys, e: Env, code: A.Code, act: L.Action)
    ensures |TickWith(s, e, code, act).retired| == |s.retired| + if Leaves(s, e) then 1 else 0
  {
  }

  lemma FlowsStep(s: Sys, e: Env, from: L.At, prog: L.Program, code: A.Code)
    requires Flows(s, from, prog, code) && AllSound(from, prog, code) && JumpFree(prog)
    ensures Flows(Tick(s, e, code, prog), from, prog, code)
  {
    var m := |s.retired| + 2;
    assert L.SoundFor(from, prog, code, 0, m);
    OnOrderStep(s, e, from, prog, code, m);
    NeverStores(s, e, code, ActionOf(s, prog));
    RetiredGrows(s, e, code, ActionOf(s, prog));
  }

  lemma FlowsRun(s: Sys, env: nat -> Env, from: L.At, prog: L.Program, code: A.Code, n: nat)
    requires Flows(s, from, prog, code) && AllSound(from, prog, code) && JumpFree(prog)
    ensures Flows(Run(s, Stepper(code, prog), env, n), from, prog, code)
  {
    var step := Stepper(code, prog);
    forall x, e | Flows(x, from, prog, code) ensures Flows(step(x, e), from, prog, code) {
      FlowsStep(x, e, from, prog, code);
    }
    Always((x: Sys) => Flows(x, from, prog, code), s, step, env, n);
  }

  /** The k-th instruction branches from DECODE. */
  predicate BranchesAt(from: L.At, prog: L.Program, code: A.Code, k: nat) {
    var a := L.Steps(from, prog, code, 0, k); Branching(a, prog(k, a.pc))
  }

  /** One cycle of the flowing run. */
  lemma FlowingTick(s: Sys, e: Env, from: L.At, prog: L.Program, code: A.Code)
    requires Flows(s, from, prog, code) && AllSound(from, prog, code) && e.avail && e.idReady
    ensures Tick(s, e, code, prog).idValid
       <==> !(s.idValid && BranchesAt(from, prog, code, |s.retired|) && !s.ctrl.jumpDone)
  {
    var act := DueAction(s, from, prog, code);
    assert L.SoundFor(from, prog, code, 0, |s.retired| + 1);
    DueSound(s, from, prog, code, |s.retired| + 1);
    DueTick(s, e, from, prog, code);
    ZeroOverhead(s, e, Due(s, from, prog, code), act, code);
  }

  lemma LostMeansBranch(s: Sys, env: nat -> Env, from: L.At, prog: L.Program, code: A.Code, n: nat)
    requires Flows(s, from, prog, code) && AllSound(from, prog, code) && JumpFree(prog)
    requires CycleLost(s, env, code, prog, n)
    ensures exists k: nat :: BranchesAt(from, prog, code, k)
  {
    FlowsRun(s, env, from, prog, code, n);
    var x := Run(s, Stepper(code, prog), env, n);
    FlowingTick(x, env(n), from, prog, code);
    assert BranchesAt(from, prog, code, |x.retired|);
  }

  /** No gaps and no stalls. */
  function Flowing(junk: A.Word): nat -> Env { (t: nat) => Env(true, true, junk) }

  /** The k-th instruction is in ID for its first cycle. */
  predicate Reached(s: Sys, from: L.At, prog: L.Program, code: A.Code, k: nat) {
    Flows(s, from, prog, code) && s.idValid && !s.ctrl.jumpDone && |s.retired| == k
  }

  lemma ReachedNext(s: Sys, e: Env, from: L.At, prog: L.Program, code: A.Code, k: nat)
    requires Reached(s, from, prog, code, k) && AllSound(from, prog, code) && JumpFree(prog)
    requires e.avail && e.idReady && !BranchesAt(from, prog, code, k)
    ensures Reached(Stepper(code, prog)(s, e), from, prog, code, k + 1)
  {
    FlowsStep(s, e, from, prog, code);
    FlowingTick(s, e, from, prog, code);
    RetiredGrows(s, e, code, ActionOf(s, prog));
  }

  lemma ReachedFirst(s: Sys, e: Env, from: L.At, prog: L.Program, code: A.Code)
    requires Flows(s, from, prog, code) && AllSound(from, prog, code) && JumpFree(prog) && !s.idValid
    requires e.avail && e.idReady && s.retired == []
    ensures Reached(Stepper(code, prog)(s, e), from, prog, code, 0)
  {
    FlowsStep(s, e, from, prog, code);
    FlowingTick(s, e, from, prog, code);
    RetiredGrows(s, e, code, ActionOf(s, prog));
  }

  lemma ReachedRun(s: Sys, from: L.At, prog: L.Program, code: A.Code, junk: A.Word, k: nat)
    requires Reached(s, from, prog, code, 0) && AllSound(from, prog, code) && JumpFree(prog)
    requires forall r: nat :: r < k ==> !BranchesAt(from, prog, code, r)
    ensures Reached(Run(s, Stepper(code, prog), Flowing(junk), k), from, prog, code, k)
  {
    var step, env := Stepper(code, prog), Flowing(junk);
    var inv := (r: nat, x: Sys) => Reached(x, from, prog, code, r);
    forall r: nat, x | r < k && inv(r, x) ensures inv(r + 1, step(x, env(r))) {
      ReachedNext(x, env(r), from, prog, code, r);
    }
    Indexed(inv, s, step, env, k, k);
    assert inv(k, Run(s, step, env, k));
  }

  lemma BranchLoses(s: Sys, from: L.At, prog: L.Program, code: A.Code, junk: A.Word, k: nat)
    requires Reached(s, from, prog, code, 0) && AllSound(from, prog, code) && JumpFree(prog)
    requires BranchesAt(from, prog, code, k) && forall r: nat :: r < k ==> !BranchesAt(from, prog, code, r)
    ensures CycleLost(s, Flowing(junk), code, prog, k)
  {
    ReachedRun(s, from, prog, code, junk, k);
    FlowingTick(Run(s, Stepper(code, prog), Flowing(junk), k), Flowing(junk)(k), from, prog, code);
  }

  lemma LostLater(s: Sys, code: A.Code, prog: L.Program, junk: A.Word, n: nat)
    requires CycleLost(Stepper(code, prog)(s, Flowing(junk)(0)), Flowing(junk), code, prog, n)
    ensures CycleLost(s, Flowing(junk), code, prog, n + 1)
  {
    FirstStep(s, Stepper(code, prog), Flowing(junk), n + 1);
  }

  lemma {:induction false} LeastBranch(from: L.At, prog: L.Program, code: A.Code, k: nat) returns (least: nat)
    requires BranchesAt(from, prog, code, k)
    ensures BranchesAt(from, prog, code, least) && forall r: nat :: r < least ==> !BranchesAt(from, prog, code, r)
  {
    if r: nat :| r < k && BranchesAt(from, prog, code, r) {
      least := LeastBranch(from, prog, code, r);
    } else {
      least := k;
    }
  }

  lemma SomeLost(s: Sys, from: L.At, prog: L.Program, code: A.Code, junk: A.Word, k: nat)
    requires Flows(s, from, prog, code) && s.retired == [] && !s.ctrl.jumpDone
    requires AllSound(from, prog, code) && JumpFree(prog) && BranchesAt(from, prog, code, k)
    ensures exists n :: CycleLost(s, Flowing(junk), code, prog, n)
  {
    var least := LeastBranch(from, prog, code, k);
    if s.idValid {
      BranchLoses(s, from, prog, code, junk, least);
    } else {
      ReachedFirst(s, Flowing(junk)(0), from, prog, code);
      BranchLoses(Stepper(code, prog)(s, Flowing(junk)(0)), from, prog, code, junk, least);
      LostLater(s, code, prog, junk, least);
    }
  }

  lemma EnteringFlows(s: Sys, from: L.At, prog: L.Program, code: A.Code)
    requires Entering(s, from, code) && s.al.state != A.BranchMisaligned && AllSound(from, prog, code)
    ensures Flows(s, from, prog, code)
  {
    assert L.SoundFor(from, prog, code, 0, 1);
    KeptAt(from, L.Stepper(prog, code), L.Ok(prog, code), L.From(0), 1, 0);
    EnteringFollows(s, from, prog, code);
  }

  /** With the order's first instruction in ID, without gaps and stalls, the first one that
      branches from DECODE is followed by the lost cycle. */
  lemma FirstLost(s: Sys, from: L.At, prog: L.Program, code: A.Code, junk: A.Word, k: nat)
    requires Entering(s, from, code) && s.idValid && s.al.state != A.BranchMisaligned
    requires AllSound(from, prog, code) && JumpFree(prog)
    requires BranchesAt(from, prog, code, k) && forall r: nat :: r < k ==> !BranchesAt(from, prog, code, r)
    ensures CycleLost(s, Flowing(junk), code, prog, k)
  {
    EnteringFlows(s, from, prog, code);
    BranchLoses(s, from, prog, code, junk, k);
  }

  /** Some pattern of gaps and stalls loses a cycle, in that ID is empty after it although a
      word was available and nothing stalled, exactly if the order meets DECODE at an
      instruction that goes back. */
  lemma CycleLostIff(s: Sys, from: L.At, prog: L.Program, code: A.Code)
    requires Entering(s, from, code) && s.al.state != A.BranchMisaligned
    requires AllSound(from, prog, code) && JumpFree(prog)
    ensures (exists env: nat -> Env, n: nat :: CycleLost(s, env, code, prog, n))
       <==> (exists k: nat :: BranchesAt(from, prog, code, k))
  {
    EnteringFlows(s, from, prog, code);
    if env: nat -> Env, n: nat :| CycleLost(s, env, code, prog, n) { LostMeansBranch(s, env, from, prog, code, n); }
    if k: nat :| BranchesAt(from, prog, code, k) { SomeLost(s, from, prog, code, A.Word(0, 0), k); }
  }

  /** Plain instructions away from the ends of iterations do not branch. */
  lemma CalmNeverBranches(from: L.At, prog: L.Program, code: A.Code, j: nat, k: nat)
    requires L.CalmFor(from, prog, code, 0, j) && k < j
    ensures !BranchesAt(from, prog, code, k)
  {
    KeptAt(from, L.Stepper(prog, code), L.CalmOk(prog, code), L.From(0), j, k);
    L.CalmHere(L.Steps(from, prog, code, 0, k), L.From(0)(k), prog, code);
  }

  // -------------------------------------------------------------------- full speed

  /** k instructions have left ID, and the next one is there for its first cycle. */
  predicate AtSpeed(s: Sys, from: L.At, prog: L.Program, code: A.Code, m: nat, k: nat) {
    && OnOrder(s, from, prog, code, m) && |s.retired| == k
    && s.idValid && !s.ctrl.jumpDone && s.al.state != A.BranchMisaligned
  }

  /** The controller does not branch then, unless the instruction does. */
  lemma NoBranchAtSpeed(s: Sys, from: L.At, prog: L.Program, code: A.Code, m: nat, k: nat)
    requires AtSpeed(s, from, prog, code, m, k) && k < m && L.SoundFor(from, prog, code, 0, m)
    requires !BranchesAt(from, prog, code, k)
    ensures !Outputs(s, ActionOf(s, prog)).pcSet
  {
    DueSound(s, from, prog, code, m);
    HeldControl(s, Due(s, from, prog, code), DueAction(s, from, prog, code), code);
  }

  /** With a word available and no stall the next one is there at once. */
  lemma SpeedStep(s: Sys, e: Env, from: L.At, prog: L.Program, code: A.Code, m: nat, k: nat)
    requires AtSpeed(s, from, prog, code, m, k) && k < m && L.SoundFor(from, prog, code, 0, m) && JumpFree(prog)
    requires !BranchesAt(from, prog, code, k) && e.avail && e.idReady
    ensures AtSpeed(Tick(s, e, code, prog), from, prog, code, m, k + 1)
  {
    var act := DueAction(s, from, prog, code);
    DueSound(s, from, prog, code, m);
    DueTick(s, e, from, prog, code);
    ZeroOverhead(s, e, Due(s, from, prog, code), act, code);
    HeldControl(s, Due(s, from, prog, code), act, code);
    OnOrderStep(s, e, from, prog, code, m);
    NeverStores(s, e, code, ActionOf(s, prog));
    RetiredGrows(s, e, code, ActionOf(s, prog));
  }
}
