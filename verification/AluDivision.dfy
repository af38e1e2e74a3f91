/** Division operand preparation in the ALU, and the whole division unit against
    section 7.2 of the RISC-V Unprivileged ISA manual (20191213).

    The ALU passes the dividend on operand b and the divisor on operand a. */
module AluDivision {
  import opened Bits
  import FF = FindFirstOne
  import D = Divider
  import opened Runs

  type Bits32 = v: Vec | |v| == 32 witness Zeros(32)

  /** operator_i[0] selects signed division, operator_i[1] the remainder. */
  datatype AluIn = AluIn(enable: bool, isSigned: bool, isRem: bool, a: Bits32, b: Bits32, exReady: bool)

  // ------------------------------------------------------- operand preparation

  predicate DivOpASigned(i: AluIn) { i.isSigned && i.a[31] }

  /** Input of the find-first-one tree for the four division opcodes. */
  function FfInput(a: Vec, neg: bool): (v: Vec)
    ensures |v| == |a|
  {
    if neg then Reverse(Invert(a)) else Reverse(a)
  }

  /** clb_result = ff1_result - 1 and div_shift, on 6 bits. */
  function ShiftAmount(noOnes: bool, ff1: nat, neg: bool): nat {
    var clb := if ff1 == 0 then 63 else ff1 - 1;
    var shift := if noOnes then 31 else clb;
    if neg then shift else if shift == 63 then 0 else shift + 1
  }

  function DivShift(a: Vec, neg: bool): nat
    requires |a| == 32
  {
    var f := FfInput(a, neg);
    ShiftAmount(FF.NoOnes(f), FF.FirstOne(f), neg)
  }

  /** div_shift[4:0] */
  function Low5(shift: nat): (s: nat)
    ensures s < 32
  {
    if shift < 32 then shift else (shift - 32) % 32
  }

  function PopCount(v: Vec): (n: nat) {
    if v == [] then 0 else Bit(v[0]) + PopCount(v[1..])
  }

  /** The divider's input port; the shifter sees the five low bits of the amount. */
  function DividerIn(i: AluIn): (d: D.In)
    ensures D.FitsIn(d, 32)
  {
    var s := DivShift(i.a, DivOpASigned(i));
    D.In(ToNat(i.b), ToNat(ShiftLeft(i.a, Low5(s))), s, PopCount(i.a) == 0, DivOpASigned(i),
         i.isSigned, i.isRem, i.enable, i.exReady)
  }

  lemma {:induction false} PopCountZero(v: Vec)
    ensures PopCount(v) == 0 <==> ToNat(v) == 0
  {
    if v != [] { PopCountZero(v[1..]); }
  }

  lemma NoHighPart(x: nat, lo: nat, p: nat, hi: nat)
    requires x == lo + p * hi && x < p
    ensures hi == 0
  {
    if hi > 0 { D.AtLeastFactor(hi, p); }
  }

  lemma LowPart(lo: Vec, hi: Vec)
    requires ToNat(lo + hi) < Pow2(|lo|)
    ensures ToNat(lo) == ToNat(lo + hi)
  {
    ConcatValue(lo, hi);
    NoHighPart(ToNat(lo + hi), ToNat(lo), Pow2(|lo|), ToNat(hi));
  }

  /** Shifting out leading zeros loses nothing. */
  lemma NormalisePositive(v: Vec, s: nat)
    requires s <= |v| && ToNat(v) < Pow2(|v| - s)
    ensures ToNat(ShiftLeft(v, s)) == Shl(ToNat(v), s)
  {
    var lo, hi := v[..|v| - s], v[|v| - s..];
    assert v == lo + hi;
    LowPart(lo, hi);
    ShiftLeftValue(lo, hi);
  }

  /** What is left below redundant sign bits has the same magnitude. */
  lemma LowPartNegative(lo: Vec, hi: Vec, m: nat)
    requires ToNat(lo + hi) + m == Pow2(|lo + hi|) && 0 < m <= Pow2(|lo|)
    ensures ToNat(lo) + m == Pow2(|lo|)
  {
    InvertValue(lo + hi);
    assert Invert(lo + hi) == Invert(lo) + Invert(hi);
    LowPart(Invert(lo), Invert(hi));
    InvertValue(lo);
  }

  /** Shifting out redundant sign bits scales the magnitude m of -m. */
  lemma NormaliseNegative(lo: Vec, hi: Vec, m: nat)
    requires ToNat(lo + hi) + m == Pow2(|lo + hi|) && 0 < m <= Pow2(|lo|)
    ensures ToNat(ShiftLeft(lo + hi, |hi|)) + Shl(m, |hi|) == Pow2(|lo| + |hi|)
  {
    LowPartNegative(lo, hi, m);
    ShiftLeftValue(lo, hi);
    ShlComplement(ToNat(lo), m, |lo|, |hi|);
  }

  lemma NegativeBounds(m: nat, k: nat, s: nat)
    requires 0 < m <= Pow2(k) < 2 * m
    ensures Shl(m, s) <= Pow2(k + s) < 2 * Shl(m, s)
  {
    ShlPow2(k, s);
    ShlAdd(m, m, s);
    ShlMono(Pow2(k), m + m, s);
    if m < Pow2(k) { ShlMono(m, Pow2(k), s); }
  }

  lemma AmountFromIndex(noOnes: bool, ff1: nat)
    requires ff1 < 32
    ensures !noOnes ==> ShiftAmount(noOnes, ff1, false) == ff1
    ensures noOnes ==> ShiftAmount(noOnes, ff1, true) == 31
    ensures !noOnes && ff1 > 0 ==> ShiftAmount(noOnes, ff1, true) == ff1 - 1
  {
  }

  /** A non-negative divisor is shifted by its leading zeros. */
  lemma PositiveShift(a: Vec)
    requires |a| == 32 && ToNat(a) > 0
    ensures DivShift(a, false) < |a|
    ensures Pow2(|a| - 1 - DivShift(a, false)) <= ToNat(a) < Pow2(|a| - DivShift(a, false))
  {
    FF.FirstOneOfReverse(a);
    var k := FF.FirstOne(Reverse(a));
    AmountFromIndex(false, k);
    assert DivShift(a, false) == k;
  }

  /** A negative divisor -m is shifted by its redundant sign bits. */
  lemma NegativeShift(a: Vec, m: nat)
    requires |a| == 32 && a[31] && ToNat(a) + m == Pow2(|a|)
    ensures DivShift(a, true) < |a|
    ensures 0 < m <= Pow2(|a| - 1 - DivShift(a, true)) < 2 * m
  {
    InvertValue(a);
    FF.FirstOneOfReverse(Invert(a));
    FF.ClearTopBit(Invert(a));
    var k := FF.FirstOne(Reverse(Invert(a)));
    if m == 1 {
      assert DivShift(a, true) == 31;
      assert Pow2(0) == 1;
    } else {
      AmountFromIndex(false, k);
      assert DivShift(a, true) == k - 1;
      assert Pow2(|a| - k) == 2 * Pow2(|a| - 1 - k);
    }
  }

  /** The prepared non-negative divisor fills the word. */
  lemma PreparedPositive(a: Vec)
    requires |a| == 32 && ToNat(a) > 0
    ensures var s := DivShift(a, false); var n := Shl(ToNat(a), s);
      s < 32 && ToNat(ShiftLeft(a, s)) == n && Pow2(|a| - 1) <= n < 2 * Pow2(|a| - 1)
  {
    PositiveShift(a);
    var s := DivShift(a, false);
    NormalisePositive(a, s);
    ShlFills(ToNat(a), |a|, s);
  }

  /** The prepared negative divisor -m keeps one sign bit. */
  lemma PreparedNegative(a: Vec, m: nat)
    requires |a| == 32 && a[31] && ToNat(a) + m == Pow2(|a|)
    ensures var s := DivShift(a, true); var n := Shl(m, s); var h := Pow2(|a| - 1);
      s < 32 && ToNat(ShiftLeft(a, s)) == 2 * h - n && 0 < n <= h < 2 * n
  {
    NegativeShift(a, m);
    var s := DivShift(a, true);
    var lo, hi := a[..|a| - s], a[|a| - s..];
    assert a == lo + hi;
    NormaliseNegative(lo, hi, m);
    NegativeBounds(m, |a| - 1 - s, s);
  }

  lemma PrepareZero(a: Vec)
    requires |a| == 32 && ToNat(a) == 0
    ensures DivShift(a, false) == 32 && ToNat(ShiftLeft(a, 0)) == 0
  {
    FF.FirstOneOfReverse(a);
    assert a == a + [];
    ShiftLeftValue(a, []);
  }

  /** The amount is a 6-bit number. */
  lemma ShiftBound(i: AluIn)
    ensures DividerIn(i).opBShift < 64
  {
    FF.FirstOneCorrect(FfInput(i.a, DivOpASigned(i)));
  }

  function DivisorMagnitude(i: AluIn): nat {
    if DivOpASigned(i) then Pow2(32) - ToNat(i.a) else ToNat(i.a)
  }

  /** A shifted divisor of half the word's range dominates every dividend magnitude. */
  lemma DominatesDividend(d: D.In, m: nat, n: nat, w: nat)
    requires w > 0 && D.FitsIn(d, w) && m > 0 && !d.opBIsZero && (d.opBSign ==> d.isSigned)
    requires n == Shl(m, d.opBShift)
    requires var h := Pow2(w - 1);
      if d.opBSign then d.opB == 2 * h - n && 0 < n <= h < 2 * n else d.opB == n && h <= n < 2 * h
    ensures D.Prepared(d, m, w)
  {
    assert Pow2(w) == 2 * Pow2(w - 1);
  }

  lemma PortPositive(i: AluIn)
    requires ToNat(i.a) != 0 && !DivOpASigned(i)
    ensures var d := DividerIn(i); var n := Shl(ToNat(i.a), d.opBShift);
      d.opBShift < 32 && !d.opBIsZero && d.opB == n && Pow2(31) <= n < 2 * Pow2(31)
  {
    PreparedPositive(i.a);
    PopCountZero(i.a);
  }

  lemma PortNegative(i: AluIn, m: nat)
    requires ToNat(i.a) != 0 && DivOpASigned(i) && ToNat(i.a) + m == Pow2(32)
    ensures var d := DividerIn(i); var n := Shl(m, d.opBShift);
      d.opBShift < 32 && !d.opBIsZero && d.opB == 2 * Pow2(31) - n && 0 < n <= Pow2(31) < 2 * n
  {
    PreparedNegative(i.a, m);
    PopCountZero(i.a);
  }

  /** The ALU meets the divider's demands for every non-zero divisor. */
  lemma FrontEndPrepares(i: AluIn)
    requires ToNat(i.a) != 0
    ensures DividerIn(i).opBShift < 32
    ensures D.Prepared(DividerIn(i), DivisorMagnitude(i), 32)
  {
    var d, m := DividerIn(i), DivisorMagnitude(i);
    if DivOpASigned(i) { PortNegative(i, m); } else { PortPositive(i); }
    DominatesDividend(d, m, Shl(m, d.opBShift), 32);
  }

  // ------------------------------------------------------------ the ISA's results

  function Signed(v: Bits32): int { if v[31] then ToNat(v) - Pow2(32) else ToNat(v) }

  function Read(v: Bits32, signed: bool): int { if signed then Signed(v) else ToNat(v) }

  /** Dividend and divisor as the operation reads them. */
  function X(i: AluIn): int { Read(i.b, i.isSigned) }

  function Y(i: AluIn): int { Read(i.a, i.isSigned) }

  function Abs(x: int): nat { if x < 0 then -x else x }

  /** Division rounding towards zero, and its remainder, from the magnitudes. */
  function TruncDiv(x: int, y: int): int
    requires y != 0
  {
    if (x < 0) != (y < 0) then -(Abs(x) / Abs(y)) else Abs(x) / Abs(y)
  }

  function TruncRem(x: int, y: int): int
    requires y != 0
  {
    if x < 0 then -(Abs(x) % Abs(y)) else Abs(x) % Abs(y)
  }

  /** DIV, DIVU, REM and REMU as section 7.2 and its table of exceptional cases give them. */
  function Isa(signed: bool, rem: bool, dividend: Bits32, divisor: Bits32): int {
    var x, y := Read(dividend, signed), Read(divisor, signed);
    if y == 0 then
      if rem then ToNat(dividend) else Pow2(32) - 1
    else if signed && x == -(Pow2(31) as int) && y == -1 then
      if rem then 0 else Pow2(31)
    else
      D.Word(if rem then TruncRem(x, y) else TruncDiv(x, y), 32)
  }

  function IsaResult(i: AluIn): int { Isa(i.isSigned, i.isRem, i.b, i.a) }

  /** q and r are quotient and remainder of a division rounding towards zero: the
      remainder, if any, has the dividend's sign. */
  predicate RoundsTowardsZero(x: int, y: int, q: int, r: int) {
    x == y * q + r && Abs(r) < Abs(y) && (r == 0 || (r < 0) == (x < 0))
  }

  /** The rounding rule leaves no freedom. */
  lemma RoundingUnique(x: int, y: int, q: int, r: int, q2: int, r2: int)
    requires y != 0 && RoundsTowardsZero(x, y, q, r) && RoundsTowardsZero(x, y, q2, r2)
    ensures q == q2 && r == r2
  {
    assert y * (q - q2) == r2 - r;
    MultipleBelow(y, q - q2);
  }

  lemma MultipleBelow(y: int, d: int)
    requires Abs(y * d) < Abs(y)
    ensures d == 0
  {
    var z := Abs(y);
    assert y * d == if y < 0 then -(z * d) else z * d;
    D.MultipleGap(z, d);
  }

  lemma SignedProduct(y: int, q: nat)
    ensures y * q == if y < 0 then 0 - Abs(y) * q else Abs(y) * q
    ensures y * (0 - q) == 0 - y * q
  {
  }

  lemma SignedRounding(x: int, y: int, q: nat, r: nat)
    requires Abs(x) == Abs(y) * q + r && r < Abs(y)
    ensures RoundsTowardsZero(x, y, if (x < 0) != (y < 0) then 0 - q else q, if x < 0 then 0 - r else r)
  {
    SignedProduct(y, q);
  }

  /** TruncDiv and TruncRem are that one quotient and remainder. */
  lemma TruncationRounds(x: int, y: int)
    requires y != 0
    ensures RoundsTowardsZero(x, y, TruncDiv(x, y), TruncRem(x, y))
  {
    var q, r := Abs(x) / Abs(y), Abs(x) % Abs(y);
    SignedRounding(x, y, q, r);
  }

  lemma SignedValue(v: Bits32)
    ensures D.Negative(ToNat(v), 32) <==> v[31]
    ensures Signed(v) < 0 <==> v[31]
    ensures Abs(Signed(v)) == if v[31] then Pow2(32) - ToNat(v) else ToNat(v)
    ensures Abs(Signed(v)) <= Pow2(31)
  {
    SignBit(v);
  }

  lemma SignsAndMagnitudes(i: AluIn)
    ensures var d := DividerIn(i);
      && D.DividendMagnitude(d, 32) == Abs(X(i)) && DivisorMagnitude(i) == Abs(Y(i))
      && ((d.isSigned && D.Negative(d.opA, 32)) <==> X(i) < 0)
      && (D.SignsDiffer(d, 32) <==> (X(i) < 0) != (Y(i) < 0))
  {
    SignedValue(i.a);
    SignedValue(i.b);
  }

  /** Applying the signs to the magnitudes' quotient and remainder rounds towards zero. */
  lemma SignedResultIsTruncated(i: AluIn)
    requires ToNat(i.a) != 0
    ensures D.SignedResult(DividerIn(i), DivisorMagnitude(i), 32)
         == if i.isRem then TruncRem(X(i), Y(i)) else TruncDiv(X(i), Y(i))
  {
    SignsAndMagnitudes(i);
  }

  /** The exceptional overflow row is what wrapping the rounded result gives anyway. */
  lemma OverflowIsNatural(x: int)
    requires x == -(Pow2(31) as int)
    ensures D.Word(TruncDiv(x, -1), 32) == Pow2(31) && D.Word(TruncRem(x, -1), 32) == 0
  {
    DivideByMinusOne(x);
    WordOfSmall(Pow2(31));
    WordOfSmall(0);
  }

  lemma DivideByMinusOne(x: int)
    ensures TruncDiv(x, -1) == -x && TruncRem(x, -1) == 0
  {
  }

  lemma WordOfSmall(x: nat)
    requires x < Pow2(32)
    ensures D.Word(x, 32) == x
  {
    D.NegateIsModular(x, Pow2(32));
  }

  /** The signed result is the ISA's, the overflow included. */
  lemma SignedResultIsIsa(i: AluIn)
    requires ToNat(i.a) != 0
    ensures D.Word(D.SignedResult(DividerIn(i), DivisorMagnitude(i), 32), 32) == IsaResult(i)
  {
    SignedResultIsTruncated(i);
    if Y(i) == -1 && X(i) == -(Pow2(31) as int) { OverflowIsNatural(X(i)); }
  }

  // ---------------------------------------------------------------- the whole unit

  /** The divider's input over time, seen through the ALU. */
  function DividerIns(ins: nat -> AluIn): nat -> D.In { (t: nat) => DividerIn(ins(t)) }

  lemma InputsFit(ins: nat -> AluIn)
    ensures D.AllFit(DividerIns(ins), 32)
  {
    forall t: nat ensures D.FitsIn(DividerIns(ins)(t), 32) {
      assert DividerIns(ins)(t) == DividerIn(ins(t));
    }
  }

  function UnitAfter(r: D.Regs, ins: nat -> AluIn, t: nat): (s: D.Regs)
    requires D.Fits(r, 32)
    ensures D.Fits(s, 32)
  {
    InputsFit(ins);
    D.After(r, DividerIns(ins), 32, t)
  }

  /** ready_o */
  predicate Ready(r: D.Regs, ins: nat -> AluIn, t: nat)
    requires D.Fits(r, 32)
  {
    D.OutVld(UnitAfter(r, ins, t), DividerIn(ins(t)))
  }

  /** result_o for a division opcode */
  function Result(r: D.Regs, ins: nat -> AluIn, t: nat): nat
    requires D.Fits(r, 32)
  {
    D.ResDo(UnitAfter(r, ins, t), 32)
  }

  /** A division enters an idle unit at cycle 0, and EX, being stalled, keeps presenting
      it up to cycle t. The unit's other registers hold anything. */
  ghost predicate Presented(r: D.Regs, ins: nat -> AluIn, t: nat) {
    && D.Fits(r, 32) && r.fsm == D.Idle && ins(0).enable
    && forall k: nat :: k <= t ==> ins(k).(exReady := true) == ins(0).(exReady := true)
  }

  lemma AcceptedByDivider(r: D.Regs, ins: nat -> AluIn, t: nat)
    requires Presented(r, ins, t) && t >= DividerIn(ins(0)).opBShift + 1
    ensures D.Accepted(r, DividerIns(ins), 32)
  {
    InputsFit(ins);
    forall k: nat | k <= DividerIn(ins(0)).opBShift + 1
      ensures DividerIn(ins(k)).opBIsZero == DividerIn(ins(0)).opBIsZero
    {
      assert ins(k).(exReady := true) == ins(0).(exReady := true);
    }
  }

  lemma DividedResult(r: D.Regs, ins: nat -> AluIn, t: nat)
    requires Presented(r, ins, t) && t >= DividerIn(ins(0)).opBShift + 2
    ensures DividerIn(ins(0)).opBShift <= 32
    ensures Result(r, ins, DividerIn(ins(0)).opBShift + 2) == IsaResult(ins(0))
  {
    var i := ins(0);
    var ds := DividerIns(ins);
    AcceptedByDivider(r, ins, t);
    if ToNat(i.a) == 0 {
      ZeroValue(i.a);
      PopCountZero(i.a);
      PrepareZero(i.a);
      D.DivideByZero(r, ds, 32);
    } else {
      FrontEndPrepares(i);
      D.DivideCorrect(r, ds, 32, DivisorMagnitude(i));
      SignedResultIsIsa(i);
    }
  }

  /** For every dividend, divisor, opcode, stall pattern and leftover register contents:
      not ready for exactly DivShift + 2 <= 34 cycles, then ready with the ISA's result,
      and both are held for as long as EX does not take them. */
  lemma DivisionMeetsIsa(r: D.Regs, ins: nat -> AluIn, t: nat)
    requires Presented(r, ins, t) && t >= DividerIn(ins(0)).opBShift + 2
    requires forall k: nat :: DividerIn(ins(0)).opBShift + 2 <= k < t ==> !ins(k).exReady
    ensures DividerIn(ins(0)).opBShift <= 32
    ensures forall k: nat :: k < DividerIn(ins(0)).opBShift + 2 ==> !Ready(r, ins, k)
    ensures Ready(r, ins, t) && Result(r, ins, t) == IsaResult(ins(0))
  {
    var ds := DividerIns(ins);
    AcceptedByDivider(r, ins, t);
    forall k: nat | k < DividerIn(ins(0)).opBShift + 2 ensures !Ready(r, ins, k) {
      D.ValidTiming(r, ds, 32, k);
    }
    DividedResult(r, ins, t);
    D.ResultHeld(r, ds, 32, t);
  }

  // ------------------------------------------------------- one division after another

  /** An instruction presented while EX is not ready. */
  function Held(i: AluIn): nat -> AluIn { (t: nat) => i.(exReady := false) }

  /** How many cycles it keeps EX waiting: a division two more than its shift. */
  function Latency(i: AluIn): nat { if i.enable then DividerIn(i).opBShift + 2 else 0 }

  /** The unit has been idle when i was first presented, `age` cycles ago. */
  predicate Serving(regs: D.Regs, i: AluIn, began: D.Regs, age: nat) {
    && D.Fits(regs, 32) && D.Fits(began, 32) && began.fsm == D.Idle
    && regs == UnitAfter(began, Held(i), age)
    && (!i.enable ==> regs.fsm == D.Idle)
  }

  lemma ServingStart(regs: D.Regs, i: AluIn)
    requires D.Fits(regs, 32) && regs.fsm == D.Idle
    ensures Serving(regs, i, regs, 0)
  {
  }

  lemma ExReadyIrrelevant(i: AluIn, exReady: bool)
    ensures DividerIn(i.(exReady := exReady)) == DividerIn(i).(outRdy := exReady)
  {
  }

  lemma ServingPresented(regs: D.Regs, i: AluIn, began: D.Regs, age: nat, t: nat)
    requires Serving(regs, i, began, age) && i.enable
    ensures Presented(began, Held(i), t)
    ensures D.Accepted(began, DividerIns(Held(i)), 32)
    ensures DividerIns(Held(i))(0).opBShift == DividerIn(i).opBShift
  {
    ExReadyIrrelevant(i, false);
    AcceptedByDivider(began, Held(i), DividerIn(i).opBShift + 1);
  }

  /** Not ready before, then in FINISH with the ISA's result. */
  lemma ServingDivides(regs: D.Regs, i: AluIn, began: D.Regs, age: nat)
    requires Serving(regs, i, began, age) && i.enable
    ensures DividerIn(i).opBShift <= 32
    ensures age < Latency(i) ==> !D.OutVld(regs, DividerIn(i))
    ensures age >= Latency(i) ==> regs.fsm == D.Finish && D.ResDo(regs, 32) == IsaResult(i)
  {
    var t := if age < Latency(i) then Latency(i) else age;
    ServingPresented(regs, i, began, age, t);
    ExReadyIrrelevant(i, false);
    DivisionMeetsIsa(began, Held(i), t);
    if age < Latency(i) { assert !Ready(began, Held(i), age); }
    else {
      D.FinishReached(began, DividerIns(Held(i)), 32);
      D.ResultHeld(began, DividerIns(Held(i)), 32, age);
    }
  }

  /** The unit is ready from that cycle on and not before. */
  lemma ServingReady(regs: D.Regs, i: AluIn, began: D.Regs, age: nat)
    requires Serving(regs, i, began, age)
    ensures D.OutVld(regs, DividerIn(i)) <==> age >= Latency(i)
  {
    if i.enable { ServingDivides(regs, i, began, age); }
  }

  /** While EX is not ready the same instruction stays. */
  lemma ServingStays(regs: D.Regs, i: AluIn, began: D.Regs, age: nat)
    requires Serving(regs, i, began, age)
    ensures Serving(D.Step(regs, DividerIn(i.(exReady := false)), 32), i, began, age + 1)
  {
    InputsFit(Held(i));
    assert DividerIns(Held(i))(age) == DividerIn(i.(exReady := false));
  }

  /** When EX takes it the unit is idle again, ready to accept the next one. */
  lemma ServingTaken(regs: D.Regs, i: AluIn, began: D.Regs, age: nat)
    requires Serving(regs, i, began, age) && age >= Latency(i)
    ensures D.Step(regs, DividerIn(i.(exReady := true)), 32).fsm == D.Idle
  {
    if i.enable { ServingDivides(regs, i, began, age); }
  }

  /** The unit in EX, fed with one instruction after the other, each presented until EX is
      ready: the results taken, and since when and from which registers the current one is
      presented. */
  datatype Pipe = Pipe(regs: D.Regs, began: D.Regs, age: nat, taken: seq<nat>)

  type SoundPipe = p: Pipe | D.Fits(p.regs, 32)
    witness Pipe(D.Regs(D.Idle, 0, 0, Zeros(32), 0, false, false, false),
                 D.Regs(D.Idle, 0, 0, Zeros(32), 0, false, false, false), 0, [])

  /** ex_ready_o: the unit's own ready and everything else in EX. */
  predicate Takes(p: SoundPipe, reqs: nat -> AluIn, others: bool) {
    D.OutVld(p.regs, DividerIn(reqs(|p.taken|))) && others
  }

  function PipeStep(p: SoundPipe, reqs: nat -> AluIn, others: bool): SoundPipe {
    var exReady := Takes(p, reqs, others);
    var next := D.Step(p.regs, DividerIn(reqs(|p.taken|).(exReady := exReady)), 32);
    if exReady then Pipe(next, next, 0, p.taken + [D.ResDo(p.regs, 32)]) else Pipe(next, p.began, p.age + 1, p.taken)
  }

  /** Every result taken so far is that of its division. */
  predicate AllDivided(taken: seq<nat>, reqs: nat -> AluIn) {
    forall k :: 0 <= k < |taken| && reqs(k).enable ==> taken[k] == IsaResult(reqs(k))
  }

  /** And the current instruction is served. */
  predicate InTurn(p: SoundPipe, reqs: nat -> AluIn) {
    Serving(p.regs, reqs(|p.taken|), p.began, p.age) && AllDivided(p.taken, reqs)
  }

  lemma TakesWhen(p: SoundPipe, reqs: nat -> AluIn, others: bool)
    requires InTurn(p, reqs)
    ensures Takes(p, reqs, others) <==> others && p.age >= Latency(reqs(|p.taken|))
  {
    ServingReady(p.regs, reqs(|p.taken|), p.began, p.age);
  }

  lemma TakenResult(p: SoundPipe, reqs: nat -> AluIn)
    requires InTurn(p, reqs) && Takes(p, reqs, true)
    ensures PipeStep(p, reqs, true).regs.fsm == D.Idle
    ensures reqs(|p.taken|).enable ==> D.ResDo(p.regs, 32) == IsaResult(reqs(|p.taken|))
  {
    var i := reqs(|p.taken|);
    TakesWhen(p, reqs, true);
    ServingTaken(p.regs, i, p.began, p.age);
    if i.enable { ServingDivides(p.regs, i, p.began, p.age); }
  }

  lemma OneMoreDivided(taken: seq<nat>, reqs: nat -> AluIn, result: nat)
    requires AllDivided(taken, reqs) && (reqs(|taken|).enable ==> result == IsaResult(reqs(|taken|)))
    ensures AllDivided(taken + [result], reqs)
  {
  }

  lemma InTurnTakes(p: SoundPipe, reqs: nat -> AluIn)
    requires InTurn(p, reqs) && Takes(p, reqs, true)
    ensures InTurn(PipeStep(p, reqs, true), reqs)
  {
    var next := PipeStep(p, reqs, true);
    TakenResult(p, reqs);
    OneMoreDivided(p.taken, reqs, D.ResDo(p.regs, 32));
    ServingStart(next.regs, reqs(|p.taken| + 1));
  }

  lemma InTurnWaits(p: SoundPipe, reqs: nat -> AluIn, others: bool)
    requires InTurn(p, reqs) && !Takes(p, reqs, others)
    ensures InTurn(PipeStep(p, reqs, others), reqs)
  {
    var next := PipeStep(p, reqs, others);
    assert next.taken == p.taken;
    ServingStays(p.regs, reqs(|p.taken|), p.began, p.age);
  }

  lemma InTurnStep(p: SoundPipe, reqs: nat -> AluIn, others: bool)
    requires InTurn(p, reqs)
    ensures InTurn(PipeStep(p, reqs, others), reqs)
  {
    if Takes(p, reqs, others) { InTurnTakes(p, reqs); } else { InTurnWaits(p, reqs, others); }
  }

  function Piped(r: D.Regs): SoundPipe
    requires D.Fits(r, 32)
  {
    Pipe(r, r, 0, [])
  }

  function PipeStepper(reqs: nat -> AluIn): (SoundPipe, bool) -> SoundPipe {
    (p: SoundPipe, others: bool) => PipeStep(p, reqs, others)
  }

  lemma FirstTurn(r: D.Regs, reqs: nat -> AluIn)
    requires D.Fits(r, 32) && r.fsm == D.Idle
    ensures InTurn(Piped(r), reqs)
  {
    ServingStart(r, reqs(0));
  }

  /** One division after another, or with other instructions in between: for every list of
      instructions, each presented until EX is ready, and every pattern of other stalls, each
      result taken is that of the division presented, whatever the ones before left behind. */
  lemma DivisionsInTurn(r: D.Regs, reqs: nat -> AluIn, others: nat -> bool, n: nat)
    requires D.Fits(r, 32) && r.fsm == D.Idle
    ensures var p := Run(Piped(r), PipeStepper(reqs), others, n); InTurn(p, reqs) && AllDivided(p.taken, reqs)
  {
    var step := PipeStepper(reqs);
    FirstTurn(r, reqs);
    forall p: SoundPipe, o | InTurn(p, reqs) ensures InTurn(step(p, o), reqs) { InTurnStep(p, reqs, o); }
    Always((p: SoundPipe) => InTurn(p, reqs), Piped(r), step, others, n);
  }

  function NoStalls(): nat -> bool { Constantly(true) }

  /** In a cycle without other stalls the current instruction waits or is through. */
  lemma UnstalledStep(p: SoundPipe, reqs: nat -> AluIn)
    requires InTurn(p, reqs)
    ensures var q := PipeStep(p, reqs, true);
      && InTurn(q, reqs)
      && (if p.age < Latency(reqs(|p.taken|)) then q.age == p.age + 1 && q.taken == p.taken
          else q.age == 0 && |q.taken| == |p.taken| + 1)
  {
    InTurnStep(p, reqs, true);
    TakesWhen(p, reqs, true);
  }

  /** k are through, and the next one is in its t-th cycle. */
  function Turn(reqs: nat -> AluIn, k: nat): (nat, SoundPipe) -> bool {
    (t: nat, p: SoundPipe) => InTurn(p, reqs) && |p.taken| == k && p.age == t
  }

  /** Its whole time and the cycle it is through in. */
  lemma WholeTurn(p: SoundPipe, reqs: nat -> AluIn, k: nat)
    requires Turn(reqs, k)(0, p)
    ensures Turn(reqs, k + 1)(0, Run(p, PipeStepper(reqs), NoStalls(), Latency(reqs(k)) + 1))
  {
    var inv, step, env, n := Turn(reqs, k), PipeStepper(reqs), NoStalls(), Latency(reqs(k));
    forall t: nat, x: SoundPipe | t < n && inv(t, x) ensures inv(t + 1, step(x, env(t))) { UnstalledStep(x, reqs); }
    Indexed(inv, p, step, env, n, n);
    UnstalledStep(Run(p, step, env, n), reqs);
  }

  /** Its latency and the cycle it is taken in. */
  function Times(reqs: nat -> AluIn): nat -> nat { (k: nat) => Latency(reqs(k)) + 1 }

  /** Without other stalls each division takes its own time and no cycle more: exactly k
      instructions are through after the sum of their times. */
  lemma DivisionsOnTime(r: D.Regs, reqs: nat -> AluIn, k: nat)
    requires D.Fits(r, 32) && r.fsm == D.Idle
    ensures Turn(reqs, k)(0, Run(Piped(r), PipeStepper(reqs), NoStalls(), Sum(Times(reqs), k)))
  {
    var at, step, env := (j: nat, x: SoundPipe) => Turn(reqs, j)(0, x), PipeStepper(reqs), NoStalls();
    FirstTurn(r, reqs);
    assert Turn(reqs, 0)(0, Piped(r));
    forall j: nat, x: SoundPipe | at(j, x) ensures at(j + 1, Run(x, step, env, Times(reqs)(j))) {
      WholeTurn(x, reqs, j);
    }
    Stages(at, Piped(r), step, true, Times(reqs), k);
  }
}
