/** The multiplier (cv32e40p_mult): the short multiplier and the four steps that build the
    upper half of a 32x32 product from 16x16 products. 32-bit words are naturals below
    2^32; wider signed signals are integers with their width written out. */
module Multiplier {
  import opened Bits

  type Word = x: nat | x < 0x1_0000_0000

  type Imm = x: nat | x < 32

  /** The operators of the integer and short multiplier. */
  datatype Opcode = MAC32 | MSU32 | MULI | MULIR | MULH

  datatype Fsm = Idle | Step0 | Step1 | Step2 | Finish

  /** What EX presents; bit 0 of the signed mode belongs to a, bit 1 to b. */
  datatype In = In(enable: bool, op: Opcode, subword: bool, signedA: bool, signedB: bool,
                   a: Word, b: Word, c: Word, imm: Imm, exReady: bool)

  datatype Regs = Regs(fsm: Fsm, carry: bool)

  // ------------------------------------------------------------ sizes of products

  lemma ProductBounds(x: int, y: int)
    requires -0x8000 <= x < 0x1_0000 && -0x8000 <= y < 0x1_0000
    ensures -0x7FFF_8000 <= x * y <= 0xFFFE_0001
    ensures x >= 0 && y >= 0 ==> x * y >= 0
    ensures x < 0 && y < 0 ==> 0 < x * y <= 0x4000_0000
    ensures (x < 0 && y >= 0) || (x >= 0 && y < 0) ==> x * y <= 0
  {
    if x >= 0 {
      if y >= 0 { Between(x, 0xFFFF, y, 0xFFFF); }
      else { Between(x, 0xFFFF, 0 - y, 0x8000); assert x * y == 0 - x * (0 - y); }
    } else {
      if y >= 0 { Between(0 - x, 0x8000, y, 0xFFFF); assert x * y == 0 - (0 - x) * y; }
      else { Between(0 - x, 0x8000, 0 - y, 0x8000); assert x * y == (0 - x) * (0 - y); Positive(0 - x, 0 - y); }
    }
  }

  lemma Between(x: int, mx: int, y: int, my: int)
    requires 0 <= x <= mx && 0 <= y <= my
    ensures 0 <= x * y <= mx * my
  {
    assert x * y <= mx * y;
    assert mx * y <= mx * my;
  }

  lemma Positive(x: int, y: int)
    requires x > 0 && y > 0
    ensures x * y > 0
  {
  }

  // ---------------------------------------------------------------- the datapath

  function SignedWord(x: Word): int { if x >= 0x8000_0000 then x - 0x1_0000_0000 else x }

  function High(x: Word): int { x / 0x1_0000 }

  function Low(x: Word): int { x % 0x1_0000 }

  /** A 17-bit operand: the selected half, sign extended if asked. */
  function Half(x: Word, upper: bool, signed: bool): int {
    var h := if upper then High(x) else Low(x);
    if signed && h >= 0x8000 then h - 0x1_0000 else h
  }

  /** x modulo 2^34, for every value the accumulator's operands can reach. */
  function Acc(x: int): int
    requires -0x4_0000_0000 <= x < 0x4_0000_0000
  {
    if x < 0 then x + 0x4_0000_0000 else x
  }

  /** Bits 33, 32 and 31..0 of a 34-bit value. */
  predicate Bit33(x: int) { x >= 0x2_0000_0000 }

  predicate Bit32(x: int) { 0x1_0000_0000 <= x < 0x2_0000_0000 || x >= 0x3_0000_0000 }

  function Bits31(x: int): int { x % 0x1_0000_0000 }

  /** 34 bits, read as a signed number. */
  function Signed34(b33: bool, b32: bool, low: int): int {
    (if b33 then 0 - 0x2_0000_0000 else 0) + (if b32 then 0x1_0000_0000 else 0) + low
  }

  /** The control signals the state machine chooses. */
  datatype Control = Control(next: Fsm, imm: Imm, upperA: bool, upperB: bool, signedA: bool, signedB: bool,
                             arith: bool, ready: bool, active: bool, save: bool, clear: bool, multicycle: bool)

  function Controls(fsm: Fsm, i: In): Control {
    match fsm
    case Idle =>
      if i.op == MULH && i.enable
      then Control(Step0, 0, false, false, false, false, false, false, false, false, false, false)
      else Control(Idle, 0, false, false, false, false, false, true, false, false, false, false)
    case Step0 => Control(Step1, 16, false, false, false, false, false, false, true, false, false, true)
    case Step1 => Control(Step2, 0, false, true, false, i.signedB, true, false, true, true, false, true)
    case Step2 => Control(Finish, 16, true, false, i.signedA, false, true, false, true, true, true, true)
    case Finish =>
      Control(if i.exReady then Idle else Finish, 0, true, true, i.signedA, i.signedB,
              false, true, true, false, false, false)
  }

  function ShortA(k: Control, i: In): int {
    if k.active then Half(i.a, k.upperA, k.signedA) else Half(i.a, i.subword, i.signedA)
  }

  function ShortB(k: Control, i: In): int {
    if k.active then Half(i.b, k.upperB, k.signedB) else Half(i.b, i.subword, i.signedB)
  }

  /** short_op_c: the carry on top while a high multiplication is under way. */
  function ShortC(k: Control, carry: bool, c: Word): int {
    if k.active then (if carry then c - 0x1_0000_0000 else c) else SignedWord(c)
  }

  /** Half of the last bit shifted out. */
  function Round(i: In): (r: int)
    ensures 0 <= r < 0x8000_0000
  {
    Pow2Mono(i.imm, 31);
    Pow2Is32();
    if i.op == MULIR then Pow2(i.imm) / 2 else 0
  }

  /** short_mac */
  function Mac(k: Control, carry: bool, i: In): (m: int)
    ensures 0 <= m < 0x4_0000_0000
  {
    var x, y := ShortA(k, i), ShortB(k, i);
    ProductBounds(x, y);
    Acc(ShortC(k, carry, i.c) + x * y + Round(i))
  }

  /** short_result, low 32 bits. */
  function ShortResult(k: Control, mac: int, i: In): int {
    var b31 := Bits31(mac) >= 0x8000_0000;
    var arith := if k.active then k.arith else i.signedA;
    var top33, top32 := if k.active then Bit33(mac) else b31, if k.active then Bit32(mac) else b31;
    Bits31(Signed34(arith && top33, arith && top32, Bits31(mac)) / Pow2(if k.active then k.imm else i.imm))
  }

  /** int_result: a complemented and b added for MSU32. */
  function IntResult(i: In): int {
    var a: Word := if i.op == MSU32 then 0xffff_ffff - i.a else i.a;
    var b: Word := if i.op == MSU32 then i.b else 0;
    Bits31(SignedWord(i.c) + SignedWord(b) + SignedWord(a) * SignedWord(i.b))
  }

  function Result(r: Regs, i: In): int {
    var k := Controls(r.fsm, i);
    if i.op == MAC32 || i.op == MSU32 then IntResult(i) else ShortResult(k, Mac(k, r.carry, i), i)
  }

  function NextRegs(r: Regs, i: In): Regs {
    var k := Controls(r.fsm, i);
    Regs(k.next,
         if k.save then !k.clear && Bit32(Mac(k, r.carry, i))
         else if i.exReady then false
         else r.carry)
  }

  /** The unit: two registers and the state machine's always_comb. */
  class MultiplierUnit {
    var mulhState: Fsm
    var mulhCarry: bool

    function Registers(): Regs
      reads this
    {
      Regs(mulhState, mulhCarry)
    }

    /** Reset. */
    constructor ()
      ensures Registers() == Regs(Idle, false)
    {
      mulhState, mulhCarry := Idle, false;
    }

    /** The always_comb block. */
    method Compute(i: In) returns (k: Control)
      ensures k == Controls(mulhState, i)
    {
      k := Control(mulhState, 0, false, false, false, false, false, false, true, false, false, false);
      match mulhState {
        case Idle =>
          k := k.(active := false, ready := true);
          if i.op == MULH && i.enable { k := k.(ready := false, next := Step0); }
        case Step0 =>
          k := k.(multicycle := true, imm := 16, next := Step1);
        case Step1 =>
          k := k.(multicycle := true, signedB := i.signedB, upperB := true, save := true, arith := true, next := Step2);
        case Step2 =>
          k := k.(multicycle := true, signedA := i.signedA, upperA := true, imm := 16, save := true,
                  clear := true, arith := true, next := Finish);
        case Finish =>
          k := k.(signedA := i.signedA, signedB := i.signedB, upperA := true, upperB := true, ready := true);
          if i.exReady { k := k.(next := Idle); }
      }
    }

    /** One rising clock edge, with the outputs of the cycle it ends. */
    method Clock(i: In) returns (result: int, multicycle: bool, ready: bool)
      modifies this
      ensures Registers() == NextRegs(old(Registers()), i)
      ensures result == Result(old(Registers()), i)
      ensures var k := Controls(old(mulhState), i); multicycle == k.multicycle && ready == k.ready
    {
      var k := Compute(i);
      var mac := Mac(k, mulhCarry, i);
      result := if i.op == MAC32 || i.op == MSU32 then IntResult(i) else ShortResult(k, mac, i);
      multicycle, ready := k.multicycle, k.ready;
      mulhState := k.next;
      if k.save {
        mulhCarry := !k.clear && Bit32(mac);
      } else if i.exReady {
        mulhCarry := false;
      }
    }
  }

  // -------------------------------------------------------- the high product, by values

  function Operand(x: Word, signed: bool): int { if signed then SignedWord(x) else x }

  /** The upper 32 bits of the 64-bit product. */
  function HighProduct(i: In): int {
    Bits31(Operand(i.a, i.signedA) * Operand(i.b, i.signedB) / 0x1_0000_0000)
  }

  function LowLow(i: In): int { Low(i.a) * Low(i.b) }

  function LowHigh(i: In): int { Low(i.a) * Half(i.b, true, i.signedB) }

  function HighLow(i: In): int { Half(i.a, true, i.signedA) * Low(i.b) }

  function HighHigh(i: In): int { Half(i.a, true, i.signedA) * Half(i.b, true, i.signedB) }

  /** The sums after STEP1 and STEP2, as integers. */
  function Sum1(i: In): int { LowLow(i) / 0x1_0000 + LowHigh(i) }

  function Sum2(i: In): int { Sum1(i) + HighLow(i) }

  /** STEP0's product needs no carry; STEP1's sum is a signed 33-bit number, so bit 32 is
      its sign; STEP2's sum is a signed 34-bit number. */
  lemma SumsFit(i: In)
    ensures 0 <= LowLow(i) < 0x1_0000_0000
    ensures -0x1_0000_0000 <= Sum1(i) < 0x1_0000_0000
    ensures -0x2_0000_0000 <= Sum2(i) < 0x2_0000_0000
  {
    ProductBounds(Low(i.a), Low(i.b));
    ProductBounds(Low(i.a), Half(i.b, true, i.signedB));
    ProductBounds(Half(i.a, true, i.signedA), Low(i.b));
    Between(Low(i.a), 0xFFFF, Low(i.b), 0xFFFF);
  }

  lemma Split(x: Word, signed: bool)
    ensures Operand(x, signed) == Half(x, true, signed) * 0x1_0000 + Low(x)
  {
  }

  lemma Expand(ah: int, al: int, bh: int, bl: int)
    ensures (ah * 0x1_0000 + al) * (bh * 0x1_0000 + bl)
         == ah * bh * 0x1_0000_0000 + (ah * bl + al * bh) * 0x1_0000 + al * bl
  {
    assert (ah * 0x1_0000 + al) * (bh * 0x1_0000 + bl)
        == ah * 0x1_0000 * (bh * 0x1_0000 + bl) + al * (bh * 0x1_0000 + bl);
    assert ah * 0x1_0000 * (bh * 0x1_0000 + bl) == ah * bh * 0x1_0000_0000 + ah * bl * 0x1_0000;
    assert al * (bh * 0x1_0000 + bl) == al * bh * 0x1_0000 + al * bl;
  }

  /** The partial products add up to the product's upper half. */
  lemma HighProductOfSums(i: In)
    ensures HighProduct(i) == Bits31(Bits31(Sum2(i) / 0x1_0000) + HighHigh(i))
  {
    Split(i.a, i.signedA);
    Split(i.b, i.signedB);
    Expand(Half(i.a, true, i.signedA), Low(i.a), Half(i.b, true, i.signedB), Low(i.b));
    ShiftTwice(HighHigh(i), HighLow(i) + LowHigh(i), LowLow(i));
    DropHighBits(Sum2(i) / 0x1_0000, HighHigh(i));
  }

  lemma ShiftTwice(r: int, q: int, p: int)
    ensures (r * 0x1_0000_0000 + q * 0x1_0000 + p) / 0x1_0000_0000 == r + (q + p / 0x1_0000) / 0x1_0000
  {
    var t, u := p / 0x1_0000, p % 0x1_0000;
    var v, w := (q + t) / 0x1_0000, (q + t) % 0x1_0000;
    Quotient(r * 0x1_0000_0000 + q * 0x1_0000 + p, r + v, w * 0x1_0000 + u);
  }

  lemma Quotient(x: int, v: int, rest: int)
    requires x == v * 0x1_0000_0000 + rest && 0 <= rest < 0x1_0000_0000
    ensures x / 0x1_0000_0000 == v && x % 0x1_0000_0000 == rest
  {
  }

  /** Bits above 31 do not reach the low word of a sum. */
  lemma DropHighBits(x: int, r: int)
    ensures Bits31(Bits31(x) + r) == Bits31(x + r)
  {
    var k, y := x / 0x1_0000_0000, Bits31(x) + r;
    var l, rest := y / 0x1_0000_0000, y % 0x1_0000_0000;
    Quotient(x + r, k + l, rest);
  }

  // ------------------------------------------------------------------ the four steps

  lemma Step0Result(i: In)
    requires i.op == MULH && i.c == 0
    ensures Result(Regs(Step0, false), i) == LowLow(i) / 0x1_0000
  {
    SumsFit(i);
    assert Mac(Controls(Step0, i), false, i) == LowLow(i);
    UpperHalf(LowLow(i));
    Pow2Is32();
  }

  lemma UpperHalf(x: int)
    requires 0 <= x < 0x1_0000_0000
    ensures Bits31(Signed34(false, false, Bits31(x)) / 0x1_0000) == x / 0x1_0000
  {
  }

  /** The accumulator's low word holds the sum, its bit 32 the sign. */
  lemma Step1Result(i: In)
    requires i.op == MULH && i.c == LowLow(i) / 0x1_0000
    ensures Result(Regs(Step1, false), i) == Bits31(Sum1(i))
    ensures NextRegs(Regs(Step1, false), i) == Regs(Step2, Sum1(i) < 0)
  {
    SumsFit(i);
    LowWord(Sum1(i));
  }

  lemma LowWord(x: int)
    requires -0x1_0000_0000 <= x < 0x1_0000_0000
    ensures Bits31(Acc(x)) == Bits31(x) == if x < 0 then x + 0x1_0000_0000 else x
    ensures Bit32(Acc(x)) == (x < 0) == Bit33(Acc(x))
  {
  }

  /** Carry and fed-back word are the sum again; shifting keeps the accumulator's sign. */
  lemma Step2Result(i: In)
    requires i.op == MULH && i.c == Bits31(Sum1(i))
    ensures Result(Regs(Step2, Sum1(i) < 0), i) == Bits31(Sum2(i) / 0x1_0000)
  {
    SumsFit(i);
    LowWord(Sum1(i));
    var k := Controls(Step2, i);
    assert ShortC(k, Sum1(i) < 0, i.c) == Sum1(i);
    Reassembled(Sum2(i));
    Pow2Is32();
  }

  lemma Reassembled(x: int)
    requires -0x2_0000_0000 <= x < 0x2_0000_0000
    ensures Signed34(Bit33(Acc(x)), Bit32(Acc(x)), Bits31(Acc(x))) == x
  {
  }

  lemma FinishResult(i: In)
    requires i.op == MULH && i.c == Bits31(Sum2(i) / 0x1_0000)
    ensures Result(Regs(Finish, false), i) == HighProduct(i)
  {
    ProductBounds(Half(i.a, true, i.signedA), Half(i.b, true, i.signedB));
    HighProductOfSums(i);
    WrapTwice(i.c + HighHigh(i));
  }

  lemma WrapTwice(x: int)
    requires -0x4_0000_0000 <= x < 0x4_0000_0000
    ensures Bits31(Acc(x)) == Bits31(x) && Bits31(Bits31(x)) == Bits31(x)
  {
  }

  // -------------------------------------------------------------------- whole runs

  /** The unit with its operand register c, which ID loads with the result while the unit
      asks for another cycle. */
  datatype Sys = Sys(regs: Regs, c: Word)

  /** One cycle of an instruction i whose other operands stay in EX. */
  function Tick(s: Sys, i: In, exReady: bool): Sys {
    var j := i.(c := s.c, exReady := exReady);
    Sys(NextRegs(s.regs, j), if Controls(s.regs.fsm, j).multicycle then Result(s.regs, j) else s.c)
  }

  function Run(s: Sys, i: In, exReady: nat -> bool, n: nat): Sys {
    if n == 0 then s else Tick(Run(s, i, exReady, n - 1), i, exReady(n - 1))
  }

  /** Only STEP2 starts with the carry set, in every run and for every operator. */
  lemma CarryOnlyInStep2(r: Regs, i: In)
    requires r.carry ==> r.fsm == Step2
    ensures var n := NextRegs(r, i); n.carry ==> n.fsm == Step2
  {
  }

  /** A high multiplication starts: unit idle, c cleared by the decoder. */
  predicate Starts(s: Sys, i: In) { s == Sys(Regs(Idle, false), 0) && i.enable && i.op == MULH }

  /** The registers and c after each of the first four cycles. */
  function Stage(i: In, n: nat): Sys
    requires n <= 4
  {
    SumsFit(i);
    if n == 0 then Sys(Regs(Idle, false), 0)
    else if n == 1 then Sys(Regs(Step0, false), 0)
    else if n == 2 then Sys(Regs(Step1, false), LowLow(i) / 0x1_0000)
    else if n == 3 then Sys(Regs(Step2, Sum1(i) < 0), Bits31(Sum1(i)))
    else Sys(Regs(Finish, false), Bits31(Sum2(i) / 0x1_0000))
  }

  /** The operands alone decide the sums. */
  predicate SameSums(i: In, j: In) {
    LowLow(j) == LowLow(i) && Sum1(j) == Sum1(i) && Sum2(j) == Sum2(i)
  }

  lemma StageStep1(i: In, exReady: bool)
    requires i.op == MULH
    ensures Tick(Stage(i, 1), i, exReady) == Stage(i, 2)
  {
    var j := i.(c := 0, exReady := exReady);
    assert SameSums(i, j);
    Step0Result(j);
  }

  lemma StageStep2(i: In, exReady: bool)
    requires i.op == MULH
    ensures Tick(Stage(i, 2), i, exReady) == Stage(i, 3)
  {
    var j := i.(c := Stage(i, 2).c, exReady := exReady);
    assert SameSums(i, j);
    Step1Result(j);
  }

  lemma StageStep3(i: In, exReady: bool)
    requires i.op == MULH
    ensures Tick(Stage(i, 3), i, exReady) == Stage(i, 4)
  {
    var j := i.(c := Stage(i, 3).c, exReady := exReady);
    assert SameSums(i, j);
    Step2Result(j);
    assert NextRegs(Stage(i, 3).regs, j) == Regs(Finish, false);
  }

  lemma StageStep(i: In, exReady: bool, n: nat)
    requires n < 4 && i.enable && i.op == MULH
    ensures Tick(Stage(i, n), i, exReady) == Stage(i, n + 1)
  {
    if n == 1 { StageStep1(i, exReady); }
    else if n == 2 { StageStep2(i, exReady); }
    else if n == 3 { StageStep3(i, exReady); }
  }

  lemma {:induction false} StagesRun(s: Sys, i: In, exReady: nat -> bool, n: nat)
    requires Starts(s, i) && n <= 4
    ensures Run(s, i, exReady, n) == Stage(i, n)
  {
    if n > 0 {
      StagesRun(s, i, exReady, n - 1);
      StageStep(i, exReady(n - 1), n - 1);
    }
  }

  /** EX has not been ready since the unit finished. */
  predicate Stalled(exReady: nat -> bool, n: nat) { n <= 4 || (Stalled(exReady, n - 1) && !exReady(n - 1)) }

  lemma {:induction false} FinishHolds(s: Sys, i: In, exReady: nat -> bool, n: nat)
    requires Starts(s, i) && n >= 4 && Stalled(exReady, n)
    ensures Run(s, i, exReady, n) == Stage(i, 4)
  {
    if n == 4 { StagesRun(s, i, exReady, 4); } else { FinishHolds(s, i, exReady, n - 1); }
  }

  /** The unit is not ready for the first four cycles, and its result goes back into operand c
      in all but the first of them. */
  lemma FourCyclesBusy(s: Sys, i: In, exReady: nat -> bool, n: nat)
    requires Starts(s, i) && n < 4
    ensures var k := Controls(Run(s, i, exReady, n).regs.fsm, i);
      !k.ready && (k.multicycle <==> n > 0) && (k.active <==> n > 0)
  {
    StagesRun(s, i, exReady, n);
  }

  lemma FinishStage(e: Sys, i: In)
    requires e == Stage(i, 4) && i.op == MULH
    ensures Controls(e.regs.fsm, i).ready && Result(e.regs, i.(c := e.c)) == HighProduct(i)
    ensures Tick(e, i, true).regs == Regs(Idle, false)
  {
    FinishResult(i.(c := e.c));
  }

  /** For every signedness: after four cycles the unit is ready with the upper half of the
      product, which stays unchanged for as long as EX stalls; then it is idle with the
      carry clear. */
  lemma HighMultiplication(s: Sys, i: In, exReady: nat -> bool, n: nat)
    requires Starts(s, i) && n >= 4 && Stalled(exReady, n)
    ensures var e := Run(s, i, exReady, n);
      && Controls(e.regs.fsm, i).ready && !Controls(e.regs.fsm, i).multicycle
      && Result(e.regs, i.(c := e.c)) == HighProduct(i)
      && Tick(e, i, true).regs == Regs(Idle, false)
  {
    FinishHolds(s, i, exReady, n);
    FinishStage(Run(s, i, exReady, n), i);
  }

  // -------------------------------------------------------------- multiply-subtract

  /** The idle unit is ready at once and stays idle. */
  predicate OneCycle(i: In) {
    var k := Controls(Idle, i);
    k.ready && !k.multicycle && !k.active && k.next == Idle
  }

  /** Complementing a and adding b multiplies by -a: MSU subtracts the product. */
  lemma MultiplySubtract(r: Regs, i: In)
    requires i.op == MSU32 || i.op == MAC32
    ensures Result(r, i) == Bits31(if i.op == MSU32 then SignedWord(i.c) - SignedWord(i.a) * SignedWord(i.b)
                                   else SignedWord(i.c) + SignedWord(i.a) * SignedWord(i.b))
    ensures r.fsm == Idle ==> OneCycle(i)
  {
    if i.op == MSU32 {
      var a, b := SignedWord(i.a), SignedWord(i.b);
      assert SignedWord(0xffff_ffff - i.a) == 0 - a - 1;
      assert b + (0 - a - 1) * b == 0 - a * b;
    }
  }

  // ------------------------------------------------------------ short multiplication

  /** c plus the product of the selected halfwords, and half of the last bit shifted out for
      the rounding operator. */
  function ShortSum(i: In): int {
    SignedWord(i.c) + Half(i.a, i.subword, i.signedA) * Half(i.b, i.subword, i.signedB)
    + (if i.op == MULIR && i.imm > 0 then Pow2(i.imm - 1) else 0)
  }

  lemma RoundIsHalf(i: In)
    ensures Round(i) == if i.op == MULIR && i.imm > 0 then Pow2(i.imm - 1) else 0
  {
    if i.imm > 0 { assert Pow2(i.imm) == 2 * Pow2(i.imm - 1); }
  }

  lemma ShortMac(i: In, carry: bool)
    requires i.op == MULI || i.op == MULIR
    ensures Bits31(Mac(Controls(Idle, i), carry, i)) == Bits31(ShortSum(i))
  {
    ProductBounds(Half(i.a, i.subword, i.signedA), Half(i.b, i.subword, i.signedB));
    RoundIsHalf(i);
    WrapTwice(ShortSum(i));
  }

  /** The low word with its top bit repeated above, or zeros. */
  lemma RepeatedSign(x: Word, signed: bool)
    ensures Signed34(signed && x >= 0x8000_0000, signed && x >= 0x8000_0000, x) == Operand(x, signed)
  {
  }

  /** The short multiplier: the sum's low word, read as signed or not, shifted right; ready
      at once. */
  lemma ShortMultiplication(r: Regs, i: In)
    requires (i.op == MULI || i.op == MULIR) && r.fsm == Idle
    ensures Result(r, i) == Bits31(Operand(Bits31(ShortSum(i)), i.signedA) / Pow2(i.imm))
    ensures OneCycle(i)
  {
    ShortMac(i, r.carry);
    RepeatedSign(Bits31(ShortSum(i)), i.signedA);
  }
}
