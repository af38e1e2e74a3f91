/** The instruction aligner (cv32e40p_aligner) between the prefetcher and the IF/ID
    register.

    A program counter is kept as word index and half selector (pc[31:2], pc[1]); pc[0] is
    always 0. An instruction is 32 bits long when the low two bits of its first halfword
    are 11 (section 1.5 of the RISC-V Unprivileged ISA manual). */
module Aligner {
  import opened Runs

  const WORDS: nat := 0x4000_0000

  datatype Pc = Pc(index: nat, upper: bool)

  type Half = h: nat | h < 0x1_0000

  predicate IsLong(h: Half) { h % 4 == 3 }

  function NextWord(index: nat): nat { if index + 1 == WORDS then 0 else index + 1 }

  /** pc + 2 and pc + 4, modulo 2^32. */
  function Plus2(pc: Pc): Pc { if pc.upper then Pc(NextWord(pc.index), false) else Pc(pc.index, true) }

  function Plus4(pc: Pc): Pc { Pc(NextWord(pc.index), pc.upper) }

  datatype State = Aligned32 | Misaligned32 | Misaligned16 | BranchMisaligned | WaitValidBranch

  datatype Regs = Regs(state: State, instrH: Half, hwlpAddr: Pc, pc: Pc, ready: bool, hwlpUpdatePc: bool)

  /** One word from the prefetcher. */
  datatype Word = Word(lo: Half, hi: Half)

  datatype In = In(fetchValid: bool, ifValid: bool, rdata: Word, branch: bool, branchAddr: Pc,
                   hwlpUpdatePc: bool, hwlpAddr: Pc)

  /** The combinational block's results. */
  datatype Comb = Comb(valid: bool, instr: Word, ready: bool, update: bool, next: State, pcN: Pc)

  /** The case arms, before a branch overrides them. */
  function Arm(r: Regs, i: In): Comb {
    match r.state
    case Aligned32 =>
      if IsLong(i.rdata.lo) then
        Comb(i.fetchValid, i.rdata, true, i.fetchValid && i.ifValid, Aligned32,
             if i.hwlpUpdatePc then i.hwlpAddr else if r.hwlpUpdatePc then r.hwlpAddr else Plus4(r.pc))
      else Comb(i.fetchValid, i.rdata, true, i.fetchValid && i.ifValid, Misaligned32, Plus2(r.pc))
    case Misaligned32 =>
      if IsLong(r.instrH) then
        Comb(i.fetchValid, Word(r.instrH, i.rdata.lo), true, i.fetchValid && i.ifValid, Misaligned32, Plus4(r.pc))
      else Comb(true, Word(r.instrH, i.rdata.hi), !i.fetchValid, i.ifValid, Misaligned16, Plus2(r.pc))
    case Misaligned16 =>
      var held := !r.ready || i.fetchValid;
      if IsLong(i.rdata.lo) then Comb(held, i.rdata, true, held && i.ifValid, Aligned32, Plus4(r.pc))
      else Comb(held, i.rdata, true, held && i.ifValid, Misaligned32, Plus2(r.pc))
    case BranchMisaligned =>
      if IsLong(i.rdata.hi) then Comb(false, i.rdata, true, i.fetchValid && i.ifValid, Misaligned32, r.pc)
      else Comb(i.fetchValid, Word(i.rdata.hi, i.rdata.hi), true, i.fetchValid && i.ifValid, Aligned32, Plus2(r.pc))
    case WaitValidBranch =>
      Comb(i.fetchValid, i.rdata, true, false, WaitValidBranch, r.pc)
  }

  function Combinational(r: Regs, i: In): Comb {
    if i.branch then
      Arm(r, i).(update := true, pcN := i.branchAddr,
                 next := if i.branchAddr.upper then BranchMisaligned else Aligned32)
    else Arm(r, i)
  }

  function NextRegs(r: Regs, i: In): Regs {
    var c := Combinational(r, i);
    if c.update then Regs(c.next, i.rdata.hi, r.hwlpAddr, c.pcN, c.ready, false)
    else if i.hwlpUpdatePc then r.(hwlpAddr := i.hwlpAddr, hwlpUpdatePc := true)
    else r
  }

  /** The module: its registers, one always_comb and one clocked process. */
  class InstructionAligner {
    var state: State
    var rInstrH: Half
    var hwlpAddrQ: Pc
    var pcQ: Pc
    var alignerReadyQ: bool
    var hwlpUpdatePcQ: bool

    function Registers(): Regs
      reads this
    {
      Regs(state, rInstrH, hwlpAddrQ, pcQ, alignerReadyQ, hwlpUpdatePcQ)
    }

    /** Reset. */
    constructor ()
      ensures Registers() == Regs(Aligned32, 0, Pc(0, false), Pc(0, false), false, false)
    {
      state, rInstrH, hwlpAddrQ, pcQ := Aligned32, 0, Pc(0, false), Pc(0, false);
      alignerReadyQ, hwlpUpdatePcQ := false, false;
    }

    /** The always_comb block. */
    method Compute(i: In) returns (valid: bool, instr: Word, ready: bool, update: bool, next: State, pcN: Pc)
      ensures Comb(valid, instr, ready, update, next, pcN) == Combinational(Registers(), i)
    {
      pcN, next, update := pcQ, state, false;
      valid, instr, ready := i.fetchValid, i.rdata, true;
      match state {
        case Aligned32 =>
          update := i.fetchValid && i.ifValid;
          if IsLong(i.rdata.lo) {
            next, pcN := Aligned32, Plus4(pcQ);
            if i.hwlpUpdatePc || hwlpUpdatePcQ {
              pcN := if i.hwlpUpdatePc then i.hwlpAddr else hwlpAddrQ;
            }
          } else {
            next, pcN := Misaligned32, Plus2(pcQ);
          }
        case Misaligned32 =>
          if IsLong(rInstrH) {
            next, pcN, instr := Misaligned32, Plus4(pcQ), Word(rInstrH, i.rdata.lo);
            update := i.fetchValid && i.ifValid;
          } else {
            instr, next, valid, pcN := Word(rInstrH, i.rdata.hi), Misaligned16, true, Plus2(pcQ);
            ready, update := !i.fetchValid, i.ifValid;
          }
        case Misaligned16 =>
          valid := !alignerReadyQ || i.fetchValid;
          update := (!alignerReadyQ || i.fetchValid) && i.ifValid;
          if IsLong(i.rdata.lo) {
            next, pcN := Aligned32, Plus4(pcQ);
          } else {
            next, pcN := Misaligned32, Plus2(pcQ);
          }
        case BranchMisaligned =>
          update := i.fetchValid && i.ifValid;
          if IsLong(i.rdata.hi) {
            next, valid, pcN := Misaligned32, false, pcQ;
          } else {
            next, pcN, instr := Aligned32, Plus2(pcQ), Word(i.rdata.hi, i.rdata.hi);
          }
        case WaitValidBranch =>
      }
      if i.branch {
        update, pcN, next := true, i.branchAddr, if i.branchAddr.upper then BranchMisaligned else Aligned32;
      }
    }

    /** One rising clock edge, with the outputs of the cycle it ends. */
    method Clock(i: In) returns (valid: bool, instr: Word, ready: bool)
      modifies this
      ensures Registers() == NextRegs(old(Registers()), i)
      ensures var c := Combinational(old(Registers()), i);
        valid == c.valid && instr == c.instr && ready == c.ready
    {
      var update, next, pcN;
      valid, instr, ready, update, next, pcN := Compute(i);
      if update {
        pcQ, state, rInstrH, alignerReadyQ, hwlpUpdatePcQ := pcN, next, i.rdata.hi, ready, false;
      } else if i.hwlpUpdatePc {
        hwlpAddrQ, hwlpUpdatePcQ := i.hwlpAddr, true;
      }
    }
  }

  // ------------------------------------------------------------ the sequential walk

  /** Code memory, by halfword. */
  type Code = Pc -> Half

  /** An instruction as ID uses it: of a compressed one, only its own halfword. */
  datatype Insn = Short(pc: Pc, h: Half) | Long(pc: Pc, lo: Half, hi: Half)

  function At(code: Code, pc: Pc): Insn {
    if IsLong(code(pc)) then Long(pc, code(pc), code(Plus2(pc))) else Short(pc, code(pc))
  }

  function After(code: Code, pc: Pc): Pc { if IsLong(code(pc)) then Plus4(pc) else Plus2(pc) }

  /** Where the walk from `target` is after k instructions. */
  function WalkPc(code: Code, target: Pc, k: nat): Pc {
    if k == 0 then target else After(code, WalkPc(code, target, k - 1))
  }

  function Walk(code: Code, target: Pc, k: nat): (s: seq<Insn>)
    ensures |s| == k
  {
    if k == 0 then [] else Walk(code, target, k - 1) + [At(code, WalkPc(code, target, k - 1))]
  }

  /** The byte address of a program counter. */
  function Byte(pc: Pc): nat { 4 * pc.index + (if pc.upper then 2 else 0) }

  lemma NextBytes(pc: Pc)
    requires pc.index < WORDS
    ensures Plus2(pc).index < WORDS && Byte(Plus2(pc)) == (Byte(pc) + 2) % 0x1_0000_0000
    ensures Plus4(pc).index < WORDS && Byte(Plus4(pc)) == (Byte(pc) + 4) % 0x1_0000_0000
  {
  }

  lemma BothLowBits(h: Half)
    ensures IsLong(h) <==> h % 2 == 1 && h / 2 % 2 == 1
  {
  }

  /** In 32-bit byte addresses: an instruction takes four bytes where both low bits of its
      first halfword are set, and two bytes otherwise. */
  lemma {:induction false} WalkAddresses(code: Code, target: Pc, k: nat)
    requires target.index < WORDS
    ensures var p := WalkPc(code, target, k); var long := code(p) % 2 == 1 && code(p) / 2 % 2 == 1;
      && p.index < WORDS
      && Byte(WalkPc(code, target, k + 1)) == (Byte(p) + if long then 4 else 2) % 0x1_0000_0000
      && Walk(code, target, k + 1)[k] == (if long then Long(p, code(p), code(Plus2(p))) else Short(p, code(p)))
      && Byte(Plus2(p)) == (Byte(p) + 2) % 0x1_0000_0000
  {
    if k > 0 { WalkAddresses(code, target, k - 1); }
    var p := WalkPc(code, target, k);
    assert p.index < WORDS by { if k > 0 { NextBytes(WalkPc(code, target, k - 1)); } }
    NextBytes(p);
    BothLowBits(code(p));
    assert After(code, p) == WalkPc(code, target, k + 1);
  }

  // ------------------------------------------------------- the aligner in the IF stage

  datatype Option<T> = None | Some(value: T)

  /** One cycle's choices: whether the prefetcher has the next word, the stalls of the
      IF and ID stages, a jump or branch, and what the data lines carry without a word. */
  datatype Env = Env(avail: bool, idReady: bool, haltIf: bool, req: bool, branch: Option<Pc>, junk: Word)

  /** `fetch` is the index of the next word from the prefetcher, `target` the last branch
      target, `seen` what has entered IF/ID since. */
  datatype Sys = Sys(regs: Regs, fetch: nat, target: Pc, seen: seq<Insn>)

  /** While not requesting, the controller halts IF. */
  predicate Allowed(e: Env) { !e.req ==> e.haltIf }

  function Fetched(code: Code, index: nat): Word { Word(code(Pc(index, false)), code(Pc(index, true))) }

  predicate FetchValid(e: Env) { e.avail && e.branch == None }

  predicate IfValid(e: Env) { !e.haltIf && FetchValid(e) && e.idReady }

  function Inputs(s: Sys, e: Env, code: Code): In {
    In(FetchValid(e), IfValid(e), if FetchValid(e) then Fetched(code, s.fetch) else e.junk,
       e.branch.Some?, if e.branch.Some? then e.branch.value else Pc(0, false), false, Pc(0, false))
  }

  /** What enters IF/ID. */
  function Entering(pc: Pc, instr: Word): Insn {
    if IsLong(instr.lo) then Long(pc, instr.lo, instr.hi) else Short(pc, instr.lo)
  }

  function Tick(s: Sys, e: Env, code: Code): Sys {
    var i := Inputs(s, e, code);
    var c := Combinational(s.regs, i);
    var r := NextRegs(s.regs, i);
    match e.branch
    case Some(t) => Sys(r, t.index, t, [])
    case None =>
      Sys(r,
          if e.req && IfValid(e) && c.ready then NextWord(s.fetch) else s.fetch,
          s.target,
          if IfValid(e) && c.valid then s.seen + [Entering(s.regs.pc, c.instr)] else s.seen)
  }

  /** How each state relates pc, the saved halfword and the fetch position. */
  predicate Placed(r: Regs, fetch: nat, code: Code) {
    && !r.hwlpUpdatePc
    && match r.state
       case Aligned32 => r.pc == Pc(fetch, false)
       case Misaligned32 => r.pc.upper && fetch == NextWord(r.pc.index) && r.instrH == code(r.pc)
       case Misaligned16 => r.pc == Pc(fetch, false) && !r.ready
       case BranchMisaligned => r.pc == Pc(fetch, true)
       case WaitValidBranch => false
  }

  /** The aligner stands at the walk's next instruction, and what was seen is the walk. */
  predicate OnWalk(s: Sys, code: Code) {
    && Placed(s.regs, s.fetch, code)
    && s.regs.pc == WalkPc(code, s.target, |s.seen|)
    && s.seen == Walk(code, s.target, |s.seen|)
  }

  /** A branch puts the aligner on its walk whatever the registers held. */
  lemma BranchStartsWalk(s: Sys, e: Env, code: Code)
    requires e.branch.Some?
    ensures OnWalk(Tick(s, e, code), code) && Tick(s, e, code).target == e.branch.value
  {
  }

  /** An accepting cycle takes the instruction at pc and moves to the next one, except that
      the word holding the first half of a 32-bit branch target is only stored. */
  lemma AcceptStep(s: Sys, e: Env, code: Code)
    requires Placed(s.regs, s.fetch, code) && Allowed(e) && IfValid(e)
    ensures var t := Tick(s, e, code);
      && Placed(t.regs, t.fetch, code)
      && if s.regs.state == BranchMisaligned && IsLong(code(s.regs.pc))
         then t.seen == s.seen && t.regs.pc == s.regs.pc && t.regs.state == Misaligned32
         else t.seen == s.seen + [At(code, s.regs.pc)] && t.regs.pc == After(code, s.regs.pc)
  {
  }

  lemma StallStep(s: Sys, e: Env, code: Code)
    requires Placed(s.regs, s.fetch, code) && e.branch == None && !IfValid(e)
    ensures Tick(s, e, code) == s
  {
  }

  lemma OnWalkStep(s: Sys, e: Env, code: Code)
    requires OnWalk(s, code) && Allowed(e)
    ensures OnWalk(Tick(s, e, code), code)
  {
    if e.branch.Some? {
      BranchStartsWalk(s, e, code);
    } else if IfValid(e) {
      AcceptStep(s, e, code);
    } else {
      StallStep(s, e, code);
    }
  }

  function Stepper(code: Code): (Sys, Env) -> Sys { (s: Sys, e: Env) => Tick(s, e, code) }

  /** From any register contents, once a first branch is taken: for every code memory and
      every pattern of stalls, fetch gaps and further branches, the instructions that
      entered ID since the last branch are exactly the beginning of the walk from its
      target. */
  lemma {:induction false} SeenIsWalk(s: Sys, env: nat -> Env, code: Code, n: nat)
    requires n > 0 && env(0).branch.Some? && forall t: nat :: Allowed(env(t))
    ensures var e := Run(s, Stepper(code), env, n);
      e.seen == Walk(code, e.target, |e.seen|) && OnWalk(e, code)
  {
    if n == 1 {
      assert Run(s, Stepper(code), env, 0) == s;
      BranchStartsWalk(s, env(0), code);
    } else {
      SeenIsWalk(s, env, code, n - 1);
      OnWalkStep(Run(s, Stepper(code), env, n - 1), env(n - 1), code);
    }
  }

  /** With words available and no stall, every cycle but a first one after a branch to the
      upper half delivers an instruction. */
  lemma TwoCyclesDeliver(s: Sys, e0: Env, e1: Env, code: Code)
    requires OnWalk(s, code) && Allowed(e0) && Allowed(e1) && IfValid(e0) && IfValid(e1)
    ensures var t := Tick(Tick(s, e0, code), e1, code); |t.seen| >= |s.seen| + 1
    ensures s.regs.state != BranchMisaligned ==>
              |Tick(s, e0, code).seen| == |s.seen| + 1
  {
    AcceptStep(s, e0, code);
    AcceptStep(Tick(s, e0, code), e1, code);
  }
}
