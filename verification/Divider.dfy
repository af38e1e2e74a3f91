/** The serial divider (cv32e40p_alu_div), for every word width w >= 2.

    Dividend and divisor magnitudes are not taken out of two's complement: both
    registers hold m or, for a negative divisor, 2^w - m. */
module Divider {
  import opened Bits

  // ---------------------------------------------------------------- registers

  /** The 2-bit state register; Stuck is its fourth, unnamed code. */
  datatype Fsm = Idle | Divide | Finish | Stuck

  datatype In = In(opA: nat, opB: nat, opBShift: nat, opBIsZero: bool, opBSign: bool,
                   isSigned: bool, isRem: bool, inVld: bool, outRdy: bool)

  datatype Regs = Regs(fsm: Fsm, a: nat, b: nat, res: Vec, cnt: nat,
                       remSel: bool, compInv: bool, resInv: bool)

  predicate FitsIn(i: In, w: nat) {
    i.opA < Pow2(w) && i.opB < Pow2(w)
  }

  predicate Fits(r: Regs, w: nat) {
    r.a < Pow2(w) && r.b < Pow2(w) && |r.res| == w
  }

  // ----------------------------------------------------------------- datapath

  /** -x modulo p */
  function Negate(x: nat, p: nat): (y: nat)
    requires x < p
    ensures y < p
  {
    if x == 0 then 0 else p - x
  }

  /** x - y modulo p */
  function Subtract(x: nat, y: nat, p: nat): (z: nat)
    requires x < p && y < p
    ensures z < p
  {
    if x >= y then x - y else x - y + p
  }

  function Negative(x: nat, w: nat): bool
    requires w > 0
  {
    x >= Pow2(w - 1)
  }

  /** Operand signs differ, in a signed operation. */
  predicate SignsDiffer(i: In, w: nat)
    requires w > 0
  {
    i.isSigned && Negative(i.opA, w) != i.opBSign
  }

  /** The adder's output while loading: 0 + opA or 0 - opA. */
  function Load(i: In, w: nat): (a: nat)
    requires w > 0 && FitsIn(i, w)
    ensures a < Pow2(w)
  {
    if SignsDiffer(i, w) then Negate(i.opA, Pow2(w)) else i.opA
  }

  predicate AbComp(r: Regs, opBIsZero: bool) {
    (r.a == r.b || ((r.a > r.b) != r.compInv)) && (r.a != 0 || opBIsZero)
  }

  predicate OutVld(r: Regs, i: In) {
    (r.fsm == Idle && !i.inVld) || r.fsm == Finish
  }

  function ResDo(r: Regs, w: nat): (x: nat)
    requires Fits(r, w)
    ensures x < Pow2(w)
  {
    var out := if r.remSel then r.a else ToNat(Reverse(r.res));
    if r.resInv then Negate(out, Pow2(w)) else out
  }

  /** One clock edge. */
  function Step(r: Regs, i: In, w: nat): (n: Regs)
    requires w > 0 && Fits(r, w) && FitsIn(i, w)
    ensures Fits(n, w)
  {
    match r.fsm
    case Idle =>
      if i.inVld then
        Regs(Divide,
             Load(i, w),
             i.opB, Zeros(w), i.opBShift, i.isRem, i.opBSign,
             (!i.opBIsZero || i.isRem) && SignsDiffer(i, w))
      else r.(cnt := CountDown(r.cnt))
    case Divide =>
      var ge := AbComp(r, i.opBIsZero);
      r.(fsm := if r.cnt == 0 then Finish else Divide,
         a := if ge then Subtract(r.a, r.b, Pow2(w)) else r.a,
         b := ShiftB(r.b, r.compInv, w),
         res := r.res[1..] + [ge],
         cnt := CountDown(r.cnt))
    case Finish =>
      r.(fsm := if i.outRdy then Idle else Finish, cnt := CountDown(r.cnt))
    case Stuck =>
      r.(cnt := CountDown(r.cnt))
  }

  function CountDown(c: nat): nat { if c == 0 then 0 else c - 1 }

  /** {CompInv, B[w-1:1]} */
  function ShiftB(b: nat, compInv: bool, w: nat): (s: nat)
    requires w > 0 && b < Pow2(w)
    ensures s < Pow2(w)
  {
    b / 2 + (if compInv then Pow2(w - 1) else 0)
  }

  /** The module itself: the registers, and the clocked process that computes every
      next value from the mux and enable signals before updating. */
  class SerialDivider {
    const w: nat
    var state: Fsm
    var aReg: nat
    var bReg: nat
    var resReg: Vec
    var cnt: nat
    var remSel: bool
    var compInv: bool
    var resInv: bool

    function Registers(): Regs
      reads this
    {
      Regs(state, aReg, bReg, resReg, cnt, remSel, compInv, resInv)
    }

    /** Reset. */
    constructor (w: nat)
      requires w > 0
      ensures this.w == w && Fits(Registers(), w)
      ensures state == Idle && cnt == 0
    {
      this.w := w;
      state := Idle;
      aReg, bReg, resReg, cnt := 0, 0, Zeros(w), 0;
      remSel, compInv, resInv := false, false, false;
    }

    /** The FSM block: next state and register enables. */
    method Control(i: In)
      returns (next: Fsm, outVld: bool, loadEn: bool, aRegEn: bool, bRegEn: bool, resRegEn: bool)
      ensures outVld == OutVld(Registers(), i)
      ensures loadEn == (state == Idle && i.inVld)
      ensures resRegEn == (state == Divide) && bRegEn == (loadEn || resRegEn)
      ensures aRegEn == (loadEn || (resRegEn && AbComp(Registers(), i.opBIsZero)))
      ensures next == match state
                      case Idle => if i.inVld then Divide else Idle
                      case Divide => if cnt == 0 then Finish else Divide
                      case Finish => if i.outRdy then Idle else Finish
                      case Stuck => Stuck
    {
      loadEn, aRegEn, bRegEn, resRegEn := false, false, false, false;
      next := state;
      outVld := false;
      match state {
        case Idle =>
          outVld := true;
          if i.inVld {
            outVld, aRegEn, bRegEn, loadEn, next := false, true, true, true, Divide;
          }
        case Divide =>
          aRegEn, bRegEn, resRegEn := AbComp(Registers(), i.opBIsZero), true, true;
          if cnt == 0 { next := Finish; }
        case Finish =>
          outVld := true;
          if i.outRdy { next := Idle; }
        case Stuck =>
      }
    }

    /** One rising clock edge. */
    method Clock(i: In) returns (outVld: bool)
      requires w > 0 && Fits(Registers(), w) && FitsIn(i, w)
      modifies this
      ensures Registers() == Step(old(Registers()), i, w)
      ensures outVld == OutVld(old(Registers()), i)
    {
      var r := Registers();
      var next, valid, loadEn, aRegEn, bRegEn, resRegEn := Control(i);
      outVld := valid;
      state := next;
      cnt := if loadEn then i.opBShift else CountDown(r.cnt);
      if loadEn {
        aReg, bReg, resReg := Load(i, w), i.opB, Zeros(w);
        remSel, compInv := i.isRem, i.opBSign;
        resInv := (!i.opBIsZero || i.isRem) && SignsDiffer(i, w);
      } else {
        if aRegEn { aReg := Subtract(r.a, r.b, Pow2(w)); }
        if bRegEn { bReg := ShiftB(r.b, r.compInv, w); }
        if resRegEn { resReg := r.res[1..] + [AbComp(r, i.opBIsZero)]; }
      }
    }
  }

  // ------------------------------------------------------------ whole runs

  ghost predicate AllFit(ins: nat -> In, w: nat) {
    forall t: nat :: FitsIn(ins(t), w)
  }

  /** The registers after n clock edges. */
  function After(r: Regs, ins: nat -> In, w: nat, n: nat): (s: Regs)
    requires w > 0 && Fits(r, w) && AllFit(ins, w)
    ensures Fits(s, w)
  {
    if n == 0 then r else Step(After(r, ins, w, n - 1), ins(n - 1), w)
  }

  /** A division is accepted at cycle 0 and the divisor's zero flag is held. */
  ghost predicate Accepted(r: Regs, ins: nat -> In, w: nat) {
    && w > 1 && Fits(r, w) && AllFit(ins, w)
    && r.fsm == Idle && ins(0).inVld
    && forall t: nat :: t <= ins(0).opBShift + 1 ==> ins(t).opBIsZero == ins(0).opBIsZero
  }

  /** Timing: a division loaded with shift s spends cycles 1 .. s+1 in DIVIDE and is in
      FINISH at s+2, whatever the operands and however OutRdy behaves. */
  lemma {:induction false} DividePhase(r: Regs, ins: nat -> In, w: nat, t: nat)
    requires Accepted(r, ins, w) && 1 <= t <= ins(0).opBShift + 1
    ensures After(r, ins, w, t).fsm == Divide
    ensures After(r, ins, w, t).cnt == ins(0).opBShift + 1 - t
  {
    if t > 1 { DividePhase(r, ins, w, t - 1); }
  }

  lemma ValidTiming(r: Regs, ins: nat -> In, w: nat, t: nat)
    requires Accepted(r, ins, w) && t <= ins(0).opBShift + 1
    ensures !OutVld(After(r, ins, w, t), ins(t))
  {
    if t > 0 { DividePhase(r, ins, w, t); }
  }

  lemma FinishReached(r: Regs, ins: nat -> In, w: nat)
    requires Accepted(r, ins, w)
    ensures After(r, ins, w, ins(0).opBShift + 2).fsm == Finish
    ensures After(r, ins, w, ins(0).opBShift + 2).cnt == 0
  {
    var last := ins(0).opBShift + 1;
    DividePhase(r, ins, w, last);
    assert After(r, ins, w, last + 1) == Step(After(r, ins, w, last), ins(last), w);
  }

  lemma HoldStep(r: Regs, i: In, w: nat)
    requires w > 0 && Fits(r, w) && FitsIn(i, w)
    requires r.fsm == Finish && r.cnt == 0 && !i.outRdy
    ensures Step(r, i, w) == r
  {
  }

  /** Once finished, nothing moves until the consumer is ready. */
  lemma {:induction false} ResultHeld(r: Regs, ins: nat -> In, w: nat, t: nat)
    requires Accepted(r, ins, w) && t >= ins(0).opBShift + 2
    requires forall k: nat :: ins(0).opBShift + 2 <= k < t ==> !ins(k).outRdy
    ensures After(r, ins, w, t) == After(r, ins, w, ins(0).opBShift + 2)
    ensures OutVld(After(r, ins, w, t), ins(t))
  {
    FinishReached(r, ins, w);
    if t > ins(0).opBShift + 2 {
      ResultHeld(r, ins, w, t - 1);
      HoldStep(After(r, ins, w, t - 1), ins(t - 1), w);
    }
  }

  // ------------------------------------------------- the division invariant

  /** How magnitude m is stored in a register of p = 2^w values: as m, or as p - m when
      the divisor is negative. */
  function Encode(m: nat, inv: bool, p: nat): (x: nat)
    requires m < p
    ensures x < p
  {
    if inv then Negate(m, p) else m
  }

  /** Magnitudes a signed or unsigned register of 2h values can hold. */
  predicate Encodable(m: nat, inv: bool, h: nat) {
    if inv then m <= h else m < 2 * h
  }

  /** The unsigned compare with CompInv agrees with comparing magnitudes, and the modular
      subtraction subtracts them. */
  lemma CompareMagnitudes(r: Regs, m: nat, n: nat, h: nat)
    requires n > 0 && Encodable(m, r.compInv, h) && Encodable(n, r.compInv, h) && h > 0
    requires r.a == Encode(m, r.compInv, 2 * h) && r.b == Encode(n, r.compInv, 2 * h)
    ensures AbComp(r, false) <==> m >= n
    ensures m >= n ==> Subtract(r.a, r.b, 2 * h) == Encode(m - n, r.compInv, 2 * h)
  {
  }

  /** Halving an even encoded magnitude is the shift with CompInv entering at the top. */
  lemma HalveEncoded(n: nat, inv: bool, h: nat)
    requires n > 0 && Encodable(2 * n, inv, h)
    ensures Encode(2 * n, inv, 2 * h) / 2 + (if inv then h else 0) == Encode(n, inv, 2 * h)
  {
  }

  /** Shifting a bit in at the top of the result register appends it, as the new least
      significant bit, to the reversed reading. */
  lemma AppendQuotientBit(res: Vec, ge: bool)
    requires |res| > 0 && ToNat(Reverse(res)) < Pow2(|res| - 1)
    ensures ToNat(Reverse(res[1..] + [ge])) == 2 * ToNat(Reverse(res)) + Bit(ge)
  {
    var low := Reverse(res[1..]);
    ReverseEnds(res, ge);
    PrependValue(ge, low);
    assert !res[0] by {
      SignBit(Reverse(res));
    }
    AppendZeroValue(low);
  }

  /** The invariant of the division loop, before the compare of cycle cnt:
      dividend = quotient so far * 2n + remainder, with n the shifted divisor. */
  ghost predicate Dividing(r: Regs, ma: nat, mb: nat, h: nat, n: nat, q: nat, rem: nat) {
    && r.fsm == Divide && |r.res| > 0 && h == Pow2(|r.res| - 1)
    && ma < 2 * h && mb > 0 && n == Shl(mb, r.cnt) && n > 0
    && Encodable(ma, r.compInv, h) && Encodable(n, r.compInv, h)
    && rem <= ma
    && r.a == Encode(rem, r.compInv, 2 * h) && r.b == Encode(n, r.compInv, 2 * h)
    && ma == Times(2 * n, q) + rem && rem < 2 * n
    && ToNat(Reverse(r.res)) == q
  }

  /** Quotient and remainder after the compare. */
  function NextQ(n: nat, q: nat, rem: nat): nat { 2 * q + Bit(rem >= n) }

  function NextRem(n: nat, rem: nat): nat { if rem >= n then rem - n else rem }

  lemma NextPartial(ma: nat, n: nat, q: nat, rem: nat)
    requires ma == Times(2 * n, q) + rem
    ensures ma == Times(n, NextQ(n, q, rem)) + NextRem(n, rem)
  {
    TimesTwice(n, q);
  }

  /** One division step keeps the invariant. */
  lemma DivideStep(r: Regs, i: In, ma: nat, mb: nat, w: nat, h: nat, n: nat, q: nat, rem: nat)
    requires w > 0 && Fits(r, w) && FitsIn(i, w) && !i.opBIsZero
    requires Dividing(r, ma, mb, h, n, q, rem) && r.cnt > 0
    ensures Dividing(Step(r, i, w), ma, mb, h, n / 2, NextQ(n, q, rem), NextRem(n, rem))
  {
    DivideData(r, i, ma, mb, w, h, n, q, rem);
    HalveEncoded(n / 2, r.compInv, h);
  }

  /** The compare, the subtraction and the quotient bit of one step. */
  lemma DivideData(r: Regs, i: In, ma: nat, mb: nat, w: nat, h: nat, n: nat, q: nat, rem: nat)
    requires w > 0 && Fits(r, w) && FitsIn(i, w) && !i.opBIsZero
    requires Dividing(r, ma, mb, h, n, q, rem)
    ensures NextRem(n, rem) < n && NextRem(n, rem) <= ma < 2 * h
    ensures var s := Step(r, i, w);
      && s.a == Encode(NextRem(n, rem), r.compInv, 2 * h)
      && ToNat(Reverse(s.res)) == NextQ(n, q, rem)
      && ma == Times(n, NextQ(n, q, rem)) + NextRem(n, rem)
  {
    TimesAtLeast(n, q);
    NextPartial(ma, n, q, rem);
    CompareMagnitudes(r, rem, n, h);
    AppendQuotientBit(r.res, rem >= n);
    assert Pow2(w) == 2 * h;
  }

  /** The last step ends with the exact quotient and the encoded remainder. */
  lemma LastStep(r: Regs, i: In, ma: nat, mb: nat, w: nat, h: nat, n: nat, q: nat, rem: nat)
    requires w > 0 && Fits(r, w) && FitsIn(i, w) && !i.opBIsZero
    requires Dividing(r, ma, mb, h, n, q, rem) && r.cnt == 0
    ensures Divided(Step(r, i, w), ma, mb, h)
  {
    DivideData(r, i, ma, mb, w, h, n, q, rem);
    DivisionUnique(ma, mb, NextQ(n, q, rem), NextRem(n, rem));
  }

  /** What DIVIDE leaves in FINISH: exact quotient bits and the encoded remainder. */
  ghost predicate Divided(s: Regs, ma: nat, mb: nat, h: nat) {
    && s.fsm == Finish && mb > 0 && ma % mb < 2 * h
    && ToNat(Reverse(s.res)) == ma / mb
    && s.a == Encode(ma % mb, s.compInv, 2 * h)
  }

  lemma MultipleGap(y: nat, d: int)
    requires y > 0
    ensures d >= 1 ==> y * d >= y
    ensures d <= -1 ==> y * d <= 0 - y
  {
  }

  lemma DivisionUnique(x: nat, y: nat, q: nat, r: nat)
    requires y > 0 && x == Times(y, q) + r && r < y
    ensures q == x / y && r == x % y
  {
    TimesIsProduct(y, q);
    assert x == y * (x / y) + x % y;
    assert y * (x / y - q) == r - x % y;
    MultipleGap(y, x / y - q);
  }

  /** One cycle of the run. */
  lemma DivideCycle(r: Regs, ins: nat -> In, w: nat, t: nat,
                    ma: nat, mb: nat, h: nat, n: nat, q: nat, rem: nat)
    requires Accepted(r, ins, w) && !ins(0).opBIsZero && 1 <= t <= ins(0).opBShift + 1
    requires Dividing(After(r, ins, w, t), ma, mb, h, n, q, rem)
    ensures t <= ins(0).opBShift ==>
      Dividing(After(r, ins, w, t + 1), ma, mb, h, n / 2, NextQ(n, q, rem), NextRem(n, rem))
    ensures t == ins(0).opBShift + 1 ==> Divided(After(r, ins, w, t + 1), ma, mb, h)
  {
    var c := After(r, ins, w, t);
    DividePhase(r, ins, w, t);
    assert After(r, ins, w, t + 1) == Step(c, ins(t), w);
    assert !ins(t).opBIsZero;
    if t <= ins(0).opBShift {
      DivideStep(c, ins(t), ma, mb, w, h, n, q, rem);
    } else {
      LastStep(c, ins(t), ma, mb, w, h, n, q, rem);
    }
  }

  /** From any point of the loop, the remaining cnt+1 cycles finish the division. */
  lemma {:induction false} DivideLoop(r: Regs, ins: nat -> In, w: nat, t: nat,
                                      ma: nat, mb: nat, h: nat, n: nat, q: nat, rem: nat)
    requires Accepted(r, ins, w) && !ins(0).opBIsZero && 1 <= t <= ins(0).opBShift + 1
    requires Dividing(After(r, ins, w, t), ma, mb, h, n, q, rem)
    ensures Divided(After(r, ins, w, ins(0).opBShift + 2), ma, mb, h)
    decreases ins(0).opBShift + 2 - t
  {
    DivideCycle(r, ins, w, t, ma, mb, h, n, q, rem);
    if t <= ins(0).opBShift {
      DivideLoop(r, ins, w, t + 1, ma, mb, h, n / 2, NextQ(n, q, rem), NextRem(n, rem));
    }
  }

  /** The selection flags are set by the load alone. */
  lemma {:induction false} FlagsHeld(r: Regs, ins: nat -> In, w: nat, t: nat)
    requires Accepted(r, ins, w) && 1 <= t <= ins(0).opBShift + 2
    ensures var c := After(r, ins, w, t);
      && c.remSel == ins(0).isRem && c.compInv == ins(0).opBSign
      && c.resInv == ((!ins(0).opBIsZero || ins(0).isRem) && SignsDiffer(ins(0), w))
  {
    if t > 1 {
      FlagsHeld(r, ins, w, t - 1);
      DividePhase(r, ins, w, t - 1);
    } else {
      assert After(r, ins, w, 0) == r;
    }
  }

  // --------------------------------------------------------- the whole division

  /** |opA| as the operation reads it. */
  function DividendMagnitude(i: In, w: nat): nat
    requires w > 0 && FitsIn(i, w)
  {
    if i.isSigned && Negative(i.opA, w) then Pow2(w) - i.opA else i.opA
  }

  /** What the ALU has to supply for a non-zero divisor of magnitude mb: the divisor
      shifted left until it dominates the dividend, and its sign. */
  ghost predicate Prepared(i: In, mb: nat, w: nat)
    requires w > 0 && FitsIn(i, w)
  {
    var n := Shl(mb, i.opBShift);
    && mb > 0 && !i.opBIsZero && (i.opBSign ==> i.isSigned)
    && n > 0 && Encodable(n, i.opBSign, Pow2(w - 1)) && n < Pow2(w)
    && i.opB == Encode(n, i.opBSign, Pow2(w))
    && DividendMagnitude(i, w) < 2 * n
  }

  lemma LoadStartsDivision(r: Regs, i: In, mb: nat, w: nat)
    requires w > 0 && Fits(r, w) && FitsIn(i, w) && r.fsm == Idle && i.inVld && Prepared(i, mb, w)
    ensures Dividing(Step(r, i, w), DividendMagnitude(i, w), mb, Pow2(w - 1),
                     Shl(mb, i.opBShift), 0, DividendMagnitude(i, w))
  {
    assert Pow2(w) == 2 * Pow2(w - 1);
    assert Reverse(Zeros(w)) == Zeros(w);
    ZerosValue(w);
  }

  /** A signed number as a w-bit word. */
  function Word(x: int, w: nat): nat { x % Pow2(w) }

  /** The magnitude q of the quotient or rem of the remainder, with the sign the operation
      gives it. */
  function WithSign(i: In, q: nat, rem: nat, w: nat): int
    requires w > 0 && FitsIn(i, w)
  {
    if i.isRem then
      if i.isSigned && Negative(i.opA, w) then 0 - rem else rem
    else
      if SignsDiffer(i, w) then 0 - q else q
  }

  function SignedResult(i: In, mb: nat, w: nat): int
    requires w > 0 && FitsIn(i, w) && mb > 0
  {
    var ma := DividendMagnitude(i, w);
    WithSign(i, ma / mb, ma % mb, w)
  }

  lemma NegateIsModular(x: nat, p: nat)
    requires x < p
    ensures Negate(x, p) == (0 - x) % p && x % p == x
  {
  }

  lemma RatioBounds(x: nat, y: nat)
    requires y > 0
    ensures x / y <= x && x % y <= x
  {
    var q, r := x / y, x % y;
    assert x == y * q + r;
    AtLeastFactor(y, q);
  }

  lemma AtLeastFactor(y: nat, q: nat)
    requires y > 0
    ensures y * q >= q
  {
    assert y * q == q + (y - 1) * q;
  }

  lemma FinishedResult(e: Regs, i: In, q: nat, rem: nat, w: nat)
    requires w > 0 && Fits(e, w) && FitsIn(i, w) && rem < Pow2(w) && q < Pow2(w)
    requires ToNat(Reverse(e.res)) == q && e.a == Encode(rem, e.compInv, Pow2(w))
    requires e.remSel == i.isRem && e.compInv == i.opBSign && e.resInv == SignsDiffer(i, w)
    requires i.opBSign ==> i.isSigned
    ensures ResDo(e, w) == Word(WithSign(i, q, rem, w), w)
  {
    NegateIsModular(rem, Pow2(w));
    NegateIsModular(q, Pow2(w));
  }

  /** For every width, every prepared operand pair, every stall pattern and every
      leftover register contents: the word offered in FINISH is the signed result. */
  lemma DivideCorrect(r: Regs, ins: nat -> In, w: nat, mb: nat)
    requires Accepted(r, ins, w) && Prepared(ins(0), mb, w)
    ensures ResDo(After(r, ins, w, ins(0).opBShift + 2), w) == Word(SignedResult(ins(0), mb, w), w)
  {
    var ma := DividendMagnitude(ins(0), w);
    LoadStartsDivision(r, ins(0), mb, w);
    assert After(r, ins, w, 1) == Step(r, ins(0), w) by { assert After(r, ins, w, 0) == r; }
    DivideLoop(r, ins, w, 1, ma, mb, Pow2(w - 1), Shl(mb, ins(0).opBShift), 0, ma);
    FlagsHeld(r, ins, w, ins(0).opBShift + 2);
    RatioBounds(ma, mb);
    FinishedResult(After(r, ins, w, ins(0).opBShift + 2), ins(0), ma / mb, ma % mb, w);
  }

  // ---------------------------------------------------------------- zero divisor

  /** Against a zero divisor every compare succeeds and subtracts nothing: after k cycles
      the k quotient bits collected are all ones and the dividend is untouched. */
  lemma {:induction false} ZeroDivisorLoop(r: Regs, ins: nat -> In, w: nat, t: nat)
    requires Accepted(r, ins, w) && 1 <= t <= ins(0).opBShift + 2
    requires ins(0).opBIsZero && ins(0).opB == 0 && !ins(0).opBSign
    ensures var c := After(r, ins, w, t);
      && c.b == 0 && c.a == DividendMagnitude(ins(0), w)
      && (forall k :: 0 <= k < w && w - (t - 1) <= k ==> c.res[k])
  {
    if t > 1 {
      ZeroDivisorLoop(r, ins, w, t - 1);
      DividePhase(r, ins, w, t - 1);
      FlagsHeld(r, ins, w, t - 1);
    } else {
      assert After(r, ins, w, 0) == r;
    }
  }

  lemma OnesValue(v: Vec)
    requires forall k :: 0 <= k < |v| ==> v[k]
    ensures ToNat(v) == Pow2(|v|) - 1
  {
    InvertValue(v);
    ZeroValue(Invert(v));
  }

  /** Division by zero: all ones as quotient, the dividend as remainder. */
  lemma DivideByZero(r: Regs, ins: nat -> In, w: nat)
    requires Accepted(r, ins, w) && ins(0).opBShift + 1 >= w
    requires ins(0).opBIsZero && ins(0).opB == 0 && !ins(0).opBSign
    ensures ResDo(After(r, ins, w, ins(0).opBShift + 2), w)
         == if ins(0).isRem then ins(0).opA else Pow2(w) - 1
  {
    var e := After(r, ins, w, ins(0).opBShift + 2);
    ZeroDivisorLoop(r, ins, w, ins(0).opBShift + 2);
    FlagsHeld(r, ins, w, ins(0).opBShift + 2);
    OnesValue(Reverse(e.res));
  }
}
