/** Hardware loops: the loop registers (cv32e40p_hwloop_regs) and the controller's arms for
    plain instructions and jumps in DECODE and DECODE_HWLOOP.

    Loop start and end addresses are word aligned, so they are kept as word indices. */
module HwLoop {
  import A = Aligner

  // ------------------------------------------------------------- loop registers

  /** One register set per loop. */
  datatype Loops = Loops(start: seq<nat>, end: seq<nat>, count: seq<nat>)

  predicate Sets(l: Loops, n: nat) { |l.start| == |l.end| == |l.count| == n }

  datatype Write = Write(we0: bool, we1: bool, we2: bool, regid: nat, start: nat, end: nat, count: nat)

  /** A counter after one clock: written, decremented if allowed (32 bits), or kept. */
  function NextCount(c: nat, i: nat, w: Write, dec: bool, valid: bool): nat {
    if w.we2 && i == w.regid then w.count
    else if dec && valid then (if c == 0 then 0xffff_ffff else c - 1)
    else c
  }

  function NextLoops(l: Loops, w: Write, dec: seq<bool>, valid: bool): (n: Loops)
    requires Sets(l, |dec|) && w.regid < |dec|
    ensures Sets(n, |dec|)
  {
    Loops(if w.we0 then l.start[w.regid := w.start] else l.start,
          if w.we1 then l.end[w.regid := w.end] else l.end,
          seq(|dec|, i requires 0 <= i < |dec| => NextCount(l.count[i], i, w, dec[i], valid)))
  }

  class HwloopRegs {
    const startQ: array<nat>
    const endQ: array<nat>
    const counterQ: array<nat>

    ghost predicate Valid() {
      && startQ != endQ && startQ != counterQ && endQ != counterQ
      && startQ.Length == endQ.Length == counterQ.Length
    }

    function Contents(): Loops
      reads startQ, endQ, counterQ
    {
      Loops(startQ[..], endQ[..], counterQ[..])
    }

    /** Reset. */
    constructor (nRegs: nat)
      ensures Valid() && counterQ.Length == nRegs
      ensures fresh(startQ) && fresh(endQ) && fresh(counterQ)
      ensures forall i :: 0 <= i < nRegs ==> counterQ[i] == 0
    {
      startQ := new nat[nRegs](_ => 0);
      endQ := new nat[nRegs](_ => 0);
      counterQ := new nat[nRegs](_ => 0);
    }

    /** One rising clock edge. */
    method Clock(w: Write, dec: seq<bool>, valid: bool)
      requires Valid() && |dec| == counterQ.Length && w.regid < |dec|
      modifies startQ, endQ, counterQ
      ensures Contents() == NextLoops(old(Contents()), w, dec, valid)
    {
      ghost var was := Contents();
      if w.we0 { startQ[w.regid] := w.start; }
      if w.we1 { endQ[w.regid] := w.end; }
      for i := 0 to |dec|
        invariant startQ[..] == NextLoops(was, w, dec, valid).start
        invariant endQ[..] == NextLoops(was, w, dec, valid).end
        invariant forall j :: 0 <= j < i ==> counterQ[j] == NextLoops(was, w, dec, valid).count[j]
        invariant forall j :: i <= j < |dec| ==> counterQ[j] == was.count[j]
      {
        if w.we2 && i == w.regid {
          counterQ[i] := w.count;
        } else if dec[i] && valid {
          counterQ[i] := if counterQ[i] == 0 then 0xffff_ffff else counterQ[i] - 1;
        }
      }
    }
  }

  // ------------------------------------------------------------------ controller

  datatype Fsm = Decode | DecodeHwloop

  datatype Ctrl = Ctrl(fsm: Fsm, jumpDone: bool, end4: bool)

  /** What the controller sees of the instruction in ID. */
  datatype Flow = Plain | Jump(target: A.Pc)

  /** Both loops' registers. */
  type Pair = l: Loops | Sets(l, 2) witness Loops([0, 0], [0, 0], [0, 0])

  // Comparisons of a byte address of four times `start` or `end` with pc, pc + 4 and pc + 8.

  predicate EndEqPc(end: nat, pc: A.Pc) { A.Pc(end, false) == A.Plus4(pc) }

  predicate EndEqPcPlus4(end: nat, pc: A.Pc) { A.Pc(end, false) == A.Plus4(A.Plus4(pc)) }

  predicate EndGeqPc(end: nat, pc: A.Pc) {
    var next := A.Plus4(pc);
    if next.upper then end > next.index else end >= next.index
  }

  predicate Covers(start: nat, end: nat, pc: A.Pc) { start <= pc.index && EndGeqPc(end, pc) }

  /** is_hwlp_body */
  predicate InBody(l: Pair, pc: A.Pc) {
    || (Covers(l.start[0], l.end[0], pc) && l.count[0] > 1)
    || (Covers(l.start[1], l.end[1], pc) && l.count[1] > 1)
  }

  /** The default of hwlp_targ_addr_o. */
  function DefaultTarget(l: Pair, pc: A.Pc): nat {
    if Covers(l.start[1], l.end[1], pc) && !Covers(l.start[0], l.end[0], pc) then l.start[1] else l.start[0]
  }

  datatype Out = Out(next: Fsm, pcSet: bool, jumpDone: bool, dec0: bool, dec1: bool, end4: bool, target: A.Pc)

  /** The default arm of DECODE. */
  function DecodeArm(c: Ctrl, l: Pair, pc: A.Pc): Out {
    var body := InBody(l, pc);
    var last0 := body && EndEqPc(l.end[0], pc) && l.count[0] > 1 && !c.jumpDone;
    var last1 := body && EndEqPc(l.end[1], pc) && l.count[1] > 1 && !c.jumpDone;
    Out(if body && !(EndEqPcPlus4(l.end[0], pc) || EndEqPcPlus4(l.end[1], pc)) then DecodeHwloop else Decode,
        last0 || last1,
        c.jumpDone || last0 || last1,
        last0 || (EndEqPc(l.end[0], pc) && l.count[0] == 1),
        last1 || (EndEqPc(l.end[1], pc) && l.count[1] == 1),
        false, A.Pc(DefaultTarget(l, pc), false))
  }

  /** The default arm of DECODE_HWLOOP; there is none for jumps. */
  function HwloopArm(c: Ctrl, l: Pair, pc: A.Pc): Out {
    var body := InBody(l, pc);
    var stay := if body then DecodeHwloop else Decode;
    var jump0 := EndEqPcPlus4(l.end[0], pc) && l.count[0] > 1;
    var jump1 := EndEqPcPlus4(l.end[1], pc) && l.count[1] > 1;
    Out(if EndEqPcPlus4(l.end[0], pc) then (if jump0 then DecodeHwloop else stay)
        else if EndEqPcPlus4(l.end[1], pc) then (if jump1 then DecodeHwloop else stay)
        else DecodeHwloop,
        false, c.jumpDone,
        EndEqPc(l.end[0], pc) && l.count[0] != 0,
        EndEqPc(l.end[1], pc) && l.count[1] != 0,
        jump0 || jump1,
        A.Pc(if jump0 then l.start[0] else if jump1 then l.start[1] else DefaultTarget(l, pc), false))
  }

  function Control(c: Ctrl, l: Pair, valid: bool, pc: A.Pc, flow: Flow): Out {
    if !valid then Out(c.fsm, false, c.jumpDone, false, false, false, A.Pc(DefaultTarget(l, pc), false))
    else if c.fsm == DecodeHwloop then HwloopArm(c, l, pc)
    else if flow.Jump? then Out(Decode, !c.jumpDone, true, false, false, false, flow.target)
    else DecodeArm(c, l, pc)
  }

  /** hwlp_jump_o: the first cycle only. */
  predicate LoopJump(c: Ctrl, o: Out) { o.end4 && !c.end4 }

  function NextCtrl(o: Out, idReady: bool): Ctrl { Ctrl(o.next, o.jumpDone && !idReady, o.end4) }

  /** The controller's registers for loops, and the clocked processes around the arms. */
  class LoopController {
    var fsm: Fsm
    var jumpDoneQ: bool
    var hwlpEnd4IdQ: bool

    function Registers(): Ctrl
      reads this
    {
      Ctrl(fsm, jumpDoneQ, hwlpEnd4IdQ)
    }

    constructor ()
      ensures Registers() == Ctrl(Decode, false, false)
    {
      fsm, jumpDoneQ, hwlpEnd4IdQ := Decode, false, false;
    }

    /** The arms, in the order of their assignments. */
    method Compute(l: Pair, valid: bool, pc: A.Pc, flow: Flow)
      returns (next: Fsm, pcSet: bool, jumpDone: bool, dec0: bool, dec1: bool, end4: bool, target: A.Pc)
      ensures Out(next, pcSet, jumpDone, dec0, dec1, end4, target) == Control(Registers(), l, valid, pc, flow)
    {
      next, pcSet, jumpDone, dec0, dec1, end4 := fsm, false, jumpDoneQ, false, false, false;
      target := A.Pc(DefaultTarget(l, pc), false);
      if valid {
        match fsm {
          case Decode =>
            if flow.Jump? {
              target := flow.target;
              if !jumpDoneQ { pcSet, jumpDone := true, true; }
            } else {
              if InBody(l, pc) {
                next := if EndEqPcPlus4(l.end[0], pc) || EndEqPcPlus4(l.end[1], pc) then Decode else DecodeHwloop;
                if EndEqPc(l.end[0], pc) && l.count[0] > 1 && !jumpDoneQ {
                  pcSet, jumpDone, dec0 := true, true, true;
                }
                if EndEqPc(l.end[1], pc) && l.count[1] > 1 && !jumpDoneQ {
                  pcSet, jumpDone, dec1 := true, true, true;
                }
              }
              if EndEqPc(l.end[0], pc) && l.count[0] == 1 { dec0 := true; }
              if EndEqPc(l.end[1], pc) && l.count[1] == 1 { dec1 := true; }
            }
          case DecodeHwloop =>
            if EndEqPcPlus4(l.end[1], pc) {
              if l.count[1] > 1 {
                end4, target, next := true, A.Pc(l.start[1], false), DecodeHwloop;
              } else {
                next := if InBody(l, pc) then DecodeHwloop else Decode;
              }
            }
            if EndEqPcPlus4(l.end[0], pc) {
              if l.count[0] > 1 {
                end4, target, next := true, A.Pc(l.start[0], false), DecodeHwloop;
              } else {
                next := if InBody(l, pc) then DecodeHwloop else Decode;
              }
            }
            dec0 := EndEqPc(l.end[0], pc) && l.count[0] != 0;
            dec1 := EndEqPc(l.end[1], pc) && l.count[1] != 0;
        }
      }
    }

    /** One rising clock edge; `jump` is the one-cycle pulse to the fetch side. */
    method Clock(l: Pair, valid: bool, pc: A.Pc, flow: Flow, idReady: bool)
      returns (jump: bool, pcSet: bool, target: A.Pc)
      modifies this
      ensures var o := Control(old(Registers()), l, valid, pc, flow);
        && Registers() == NextCtrl(o, idReady)
        && jump == LoopJump(old(Registers()), o) && pcSet == o.pcSet && target == o.target
    {
      var next, jumpDone, dec0, dec1, end4;
      next, pcSet, jumpDone, dec0, dec1, end4, target := Compute(l, valid, pc, flow);
      jump := end4 && !hwlpEnd4IdQ;
      fsm, jumpDoneQ, hwlpEnd4IdQ := next, jumpDone && !idReady, end4;
    }
  }
}
