/** The ALU's partitioned adder, vector comparators, minimum, maximum, absolute value and
    clipping (cv32e40p_alu), on words of four bytes in one, two or four lanes. */
module VectorAlu {
  type Byte = x: nat | x < 256

  datatype Word = Word(b0: Byte, b1: Byte, b2: Byte, b3: Byte)

  datatype Mode = Mode32 | Mode16 | Mode8

  /** Subtractions and signed or unsigned variants that behave alike are one operator. */
  datatype Op = Add | Sub | Abs | Min(signed: bool) | Max(signed: bool) | Clip | ClipU
              | Eq | Ne | Gt(signed: bool) | Ge(signed: bool) | Lt(signed: bool) | Le(signed: bool)

  function Not(w: Word): Word { Word(255 - w.b0, 255 - w.b1, 255 - w.b2, 255 - w.b3) }

  // ----------------------------------------------------------------- lanes and values

  function Pair(lo: Byte, hi: Byte): nat { lo + 256 * hi }

  function Value(w: Word): nat { w.b0 + 256 * w.b1 + 65536 * w.b2 + 16777216 * w.b3 }

  function Count(mode: Mode): nat { match mode case Mode32 => 1 case Mode16 => 2 case Mode8 => 4 }

  /** The unsigned value of lane k, the low lane being lane 0. */
  function Lane(w: Word, mode: Mode, k: nat): nat {
    match mode
    case Mode32 => Value(w)
    case Mode16 => if k == 0 then Pair(w.b0, w.b1) else Pair(w.b2, w.b3)
    case Mode8 => if k == 0 then w.b0 else if k == 1 then w.b1 else if k == 2 then w.b2 else w.b3
  }

  function Modulus(mode: Mode): nat {
    match mode case Mode32 => 0x1_0000_0000 case Mode16 => 0x1_0000 case Mode8 => 0x100
  }

  /** Lanes k and above, put together again. */
  function Joined(w: Word, mode: Mode, k: nat): nat
    decreases Count(mode) - k
  {
    if k >= Count(mode) then 0 else Lane(w, mode, k) + Modulus(mode) * Joined(w, mode, k + 1)
  }

  /** The lanes are all of the word. */
  lemma LanesMakeWord(w: Word, mode: Mode)
    ensures Joined(w, mode, 0) == Value(w)
  {
    match mode
    case Mode32 =>
    case Mode16 => assert Joined(w, mode, 1) == Lane(w, mode, 1);
    case Mode8 =>
      assert Joined(w, mode, 3) == Lane(w, mode, 3);
      assert Joined(w, mode, 1) == Lane(w, mode, 1) + 256 * Joined(w, mode, 2);
  }

  /** A lane value as a number, signed or not. */
  function Number(x: nat, mode: Mode, signed: bool): int {
    if signed && 2 * x >= Modulus(mode) then x - Modulus(mode) else x
  }

  function AddMod(x: nat, y: nat, m: nat): int { if x + y >= m then x + y - m else x + y }

  function SubMod(x: nat, y: nat, m: nat): int { if x >= y then x - y else x - y + m }

  // -------------------------------------------------------------------- the adder

  /** adder_op_b_negate, or one of the two operators that add one like a subtraction. */
  predicate AddsOne(op: Op) { op == Sub || op == Abs || op == Clip }

  function AdderA(op: Op, a: Word): Word { if op == Abs then Not(a) else a }

  function AdderB(op: Op, b: Word): Word { if op == Sub then Not(b) else b }

  /** Four separator bits below the four bytes. */
  datatype Separators = Separators(s0: bool, s1: bool, s2: bool, s3: bool)

  function SeparatorsA(op: Op, mode: Mode): Separators {
    if AddsOne(op) then Separators(true, true, true, true)
    else Separators(true, mode != Mode8, mode == Mode32, mode != Mode8)
  }

  function SeparatorsB(op: Op, mode: Mode): Separators {
    if AddsOne(op) then Separators(true, mode == Mode8, mode != Mode32, mode == Mode8)
    else Separators(false, false, false, false)
  }

  function Group(b: Byte, sep: bool): (g: nat)
    ensures g < 512
  {
    2 * b + (if sep then 1 else 0)
  }

  /** adder_in_a and adder_in_b: 36 bits. */
  function AdderIn(w: Word, s: Separators): (x: nat)
    ensures x < 0x10_0000_0000
  {
    FourGroups(Group(w.b0, s.s0), Group(w.b1, s.s1), Group(w.b2, s.s2), Group(w.b3, s.s3))
  }

  function Signed36(x: nat): int
    requires x < 0x10_0000_0000
  {
    if x >= 0x8_0000_0000 then x - 0x10_0000_0000 else x
  }

  /** adder_result_expanded as a signed number; 37 bits hold it exactly. */
  function Expanded(op: Op, mode: Mode, a: Word, b: Word): (s: int)
    ensures -0x10_0000_0000 <= s < 0x10_0000_0000
  {
    Signed36(AdderIn(AdderA(op, a), SeparatorsA(op, mode))) + Signed36(AdderIn(AdderB(op, b), SeparatorsB(op, mode)))
  }

  /** Bits 35..0. */
  function Low36(s: int): (x: nat)
    requires -0x10_0000_0000 <= s < 0x10_0000_0000
    ensures x < 0x10_0000_0000
  {
    if s < 0 then s + 0x10_0000_0000 else s
  }

  /** The bytes between the separators. */
  function AdderBytes(x: nat): Word
    requires x < 0x10_0000_0000
  {
    Word(x % 512 / 2, x / 512 % 512 / 2, x / 262144 % 512 / 2, x / 134217728 / 2)
  }

  function AdderResult(op: Op, mode: Mode, a: Word, b: Word): Word {
    AdderBytes(Low36(Expanded(op, mode, a, b)))
  }

  // ------------------------------------------------- the sum byte by byte, with carries

  datatype Carried = Carried(digit: nat, carry: nat)

  /** Two groups and a carry. */
  function AddGroup(x: nat, y: nat, c: nat): (r: Carried)
    requires x < 512 && y < 512 && c <= 1
    ensures r.digit < 512 && r.carry <= 1 && x + y + c == r.digit + 512 * r.carry
  {
    if x + y + c >= 512 then Carried(x + y + c - 512, 1) else Carried(x + y + c, 0)
  }

  lemma Digits(x: nat, g0: nat, g1: nat, g2: nat, g3: nat)
    requires g0 < 512 && g1 < 512 && g2 < 512 && g3 < 512
    requires x == g0 + 512 * g1 + 262144 * g2 + 134217728 * g3
    ensures x % 512 == g0 && x / 512 % 512 == g1 && x / 262144 % 512 == g2 && x / 134217728 == g3
  {
    assert x / 512 == g1 + 512 * g2 + 262144 * g3;
    assert x / 262144 == g2 + 512 * g3;
  }

  /** Two bytes and a carry, as the lanes want it. */
  function AddByte(x: Byte, y: Byte, c: nat): (r: Carried)
    requires c <= 1
    ensures r.digit < 256 && r.carry <= 1 && x + y + c == r.digit + 256 * r.carry
  {
    if x + y + c >= 256 then Carried(x + y + c - 256, 1) else Carried(x + y + c, 0)
  }

  /** The carry into a byte: the carry below where the separators pass it on, else the
      one added or nothing. */
  function CarryIn(below: nat, sepA: bool, sepB: bool): nat {
    if sepA && sepB then 1 else if sepA != sepB then below else 0
  }

  /** A separator pair turns the carry below into the carry into its byte. */
  lemma SeparatorWorks(x: Byte, y: Byte, sepA: bool, sepB: bool, below: nat)
    requires below <= 1
    ensures var g := AddGroup(Group(x, sepA), Group(y, sepB), below);
      var r := AddByte(x, y, CarryIn(below, sepA, sepB));
      g.digit / 2 == r.digit && g.carry == r.carry
  {
  }

  /** The four byte sums, carries passed on as the separators say. */
  function Ripple(x: Word, y: Word, sa: Separators, sb: Separators): (r: Word) {
    var r0 := AddByte(x.b0, y.b0, CarryIn(0, sa.s0, sb.s0));
    var r1 := AddByte(x.b1, y.b1, CarryIn(r0.carry, sa.s1, sb.s1));
    var r2 := AddByte(x.b2, y.b2, CarryIn(r1.carry, sa.s2, sb.s2));
    var r3 := AddByte(x.b3, y.b3, CarryIn(r2.carry, sa.s3, sb.s3));
    Word(r0.digit, r1.digit, r2.digit, r3.digit)
  }

  lemma LowSum(x: nat, y: nat)
    requires x < 0x10_0000_0000 && y < 0x10_0000_0000
    ensures Low36(Signed36(x) + Signed36(y)) == AddMod(x, y, 0x10_0000_0000)
  {
  }

  function FourGroups(g0: nat, g1: nat, g2: nat, g3: nat): nat { g0 + 512 * g1 + 262144 * g2 + 134217728 * g3 }

  /** Group sums with carries are the digits of the whole sum. */
  lemma GroupDigits(p0: nat, p1: nat, p2: nat, p3: nat, q0: nat, q1: nat, q2: nat, q3: nat)
    requires p0 < 512 && p1 < 512 && p2 < 512 && p3 < 512 && q0 < 512 && q1 < 512 && q2 < 512 && q3 < 512
    ensures var g0 := AddGroup(p0, q0, 0); var g1 := AddGroup(p1, q1, g0.carry);
      var g2 := AddGroup(p2, q2, g1.carry); var g3 := AddGroup(p3, q3, g2.carry);
      AddMod(FourGroups(p0, p1, p2, p3), FourGroups(q0, q1, q2, q3), 0x10_0000_0000)
        == FourGroups(g0.digit, g1.digit, g2.digit, g3.digit)
  {
  }

  lemma BytesOfGroups(g0: nat, g1: nat, g2: nat, g3: nat)
    requires g0 < 512 && g1 < 512 && g2 < 512 && g3 < 512
    ensures FourGroups(g0, g1, g2, g3) < 0x10_0000_0000
    ensures AdderBytes(FourGroups(g0, g1, g2, g3)) == Word(g0 / 2, g1 / 2, g2 / 2, g3 / 2)
  {
    Digits(FourGroups(g0, g1, g2, g3), g0, g1, g2, g3);
  }

  /** One 36-bit addition does the four byte additions. */
  lemma AdditionIsRipple(x: Word, y: Word, sa: Separators, sb: Separators)
    ensures AdderBytes(Low36(Signed36(AdderIn(x, sa)) + Signed36(AdderIn(y, sb)))) == Ripple(x, y, sa, sb)
  {
    LowSum(AdderIn(x, sa), AdderIn(y, sb));
    var p0, p1, p2, p3 := Group(x.b0, sa.s0), Group(x.b1, sa.s1), Group(x.b2, sa.s2), Group(x.b3, sa.s3);
    var q0, q1, q2, q3 := Group(y.b0, sb.s0), Group(y.b1, sb.s1), Group(y.b2, sb.s2), Group(y.b3, sb.s3);
    GroupDigits(p0, p1, p2, p3, q0, q1, q2, q3);
    var g0 := AddGroup(p0, q0, 0);
    var g1 := AddGroup(p1, q1, g0.carry);
    var g2 := AddGroup(p2, q2, g1.carry);
    var g3 := AddGroup(p3, q3, g2.carry);
    BytesOfGroups(g0.digit, g1.digit, g2.digit, g3.digit);
    SeparatorWorks(x.b0, y.b0, sa.s0, sb.s0, 0);
    SeparatorWorks(x.b1, y.b1, sa.s1, sb.s1, g0.carry);
    SeparatorWorks(x.b2, y.b2, sa.s2, sb.s2, g1.carry);
    SeparatorWorks(x.b3, y.b3, sa.s3, sb.s3, g2.carry);
  }

  /** Bytes with passed-on carries add as one number. */
  lemma RippleValue(x: Word, y: Word, one: bool)
    ensures var r := Ripple(x, y, Separators(true, true, true, true), Separators(one, false, false, false));
      Value(r) == AddMod(Value(x), Value(y) + (if one then 1 else 0), 0x1_0000_0000)
  {
  }

  lemma RipplePairs(x: Word, y: Word, one: bool)
    ensures var r := Ripple(x, y, Separators(true, true, one, true), Separators(one, false, one, false));
      && Pair(r.b0, r.b1) == AddMod(Pair(x.b0, x.b1), Pair(y.b0, y.b1) + (if one then 1 else 0), 0x1_0000)
      && Pair(r.b2, r.b3) == AddMod(Pair(x.b2, x.b3), Pair(y.b2, y.b3) + (if one then 1 else 0), 0x1_0000)
  {
  }

  function LaneSum(op: Op, x: nat, y: nat, m: nat): int {
    if op == Add then AddMod(x, y, m) else SubMod(x, y, m)
  }

  /** The sum as the adder's operands and separators make it. */
  function RippleOf(op: Op, mode: Mode, a: Word, b: Word): Word {
    Ripple(AdderA(op, a), AdderB(op, b), SeparatorsA(op, mode), SeparatorsB(op, mode))
  }

  lemma AdderIsRipple(op: Op, mode: Mode, a: Word, b: Word)
    ensures AdderResult(op, mode, a, b) == RippleOf(op, mode, a, b)
  {
    AdditionIsRipple(AdderA(op, a), AdderB(op, b), SeparatorsA(op, mode), SeparatorsB(op, mode));
  }

  lemma NotValues(w: Word)
    ensures Value(Not(w)) == 0xffff_ffff - Value(w)
    ensures Pair(Not(w).b0, Not(w).b1) == 0xffff - Pair(w.b0, w.b1)
    ensures Pair(Not(w).b2, Not(w).b3) == 0xffff - Pair(w.b2, w.b3)
  {
  }

  lemma RippleLane32(op: Op, a: Word, b: Word)
    requires op == Add || op == Sub
    ensures Value(RippleOf(op, Mode32, a, b)) == LaneSum(op, Value(a), Value(b), 0x1_0000_0000)
  {
    RippleValue(a, AdderB(op, b), op == Sub);
    NotValues(b);
  }

  lemma RippleLanes16(op: Op, a: Word, b: Word)
    requires op == Add || op == Sub
    ensures var r := RippleOf(op, Mode16, a, b);
      && Pair(r.b0, r.b1) == LaneSum(op, Pair(a.b0, a.b1), Pair(b.b0, b.b1), 0x1_0000)
      && Pair(r.b2, r.b3) == LaneSum(op, Pair(a.b2, a.b3), Pair(b.b2, b.b3), 0x1_0000)
  {
    RipplePairs(a, AdderB(op, b), op == Sub);
    NotValues(b);
  }

  lemma RippleLanes8(op: Op, a: Word, b: Word)
    requires op == Add || op == Sub
    ensures var r := RippleOf(op, Mode8, a, b);
      && r.b0 == LaneSum(op, a.b0, b.b0, 0x100) && r.b1 == LaneSum(op, a.b1, b.b1, 0x100)
      && r.b2 == LaneSum(op, a.b2, b.b2, 0x100) && r.b3 == LaneSum(op, a.b3, b.b3, 0x100)
  {
  }

  lemma RippleLanes(op: Op, mode: Mode, a: Word, b: Word, k: nat)
    requires (op == Add || op == Sub) && k < Count(mode)
    ensures Lane(RippleOf(op, mode, a, b), mode, k)
         == LaneSum(op, Lane(a, mode, k), Lane(b, mode, k), Modulus(mode))
  {
    match mode
    case Mode32 => RippleLane32(op, a, b);
    case Mode16 => RippleLanes16(op, a, b);
    case Mode8 => RippleLanes8(op, a, b);
  }

  /** In every mode the one addition adds or subtracts each lane by itself. */
  lemma LanesAddOrSubtract(op: Op, mode: Mode, a: Word, b: Word, k: nat)
    requires (op == Add || op == Sub) && k < Count(mode)
    ensures Lane(AdderResult(op, mode, a, b), mode, k)
         == LaneSum(op, Lane(a, mode, k), Lane(b, mode, k), Modulus(mode))
  {
    AdderIsRipple(op, mode, a, b);
    RippleLanes(op, mode, a, b, k);
  }

  // ------------------------------------------------------------------- comparators

  /** One flag per byte. */
  datatype Flags = Flags(f0: bool, f1: bool, f2: bool, f3: bool)

  predicate IsSigned(op: Op) {
    match op
    case Gt(s) => s
    case Ge(s) => s
    case Lt(s) => s
    case Le(s) => s
    case Min(s) => s
    case Max(s) => s
    case Abs => true
    case Clip => true
    case ClipU => true
    case _ => false
  }

  /** cmp_signed: the top byte of each lane. */
  function CmpSigned(op: Op, mode: Mode): Flags {
    if !IsSigned(op) then Flags(false, false, false, false)
    else Flags(mode == Mode8, mode != Mode32, mode == Mode8, true)
  }

  function SignedByte(x: Byte, signed: bool): int { if signed && x >= 128 then x - 256 else x }

  function GreaterVec(op: Op, mode: Mode, a: Word, b: Word): Flags {
    var c := CmpSigned(op, mode);
    Flags(SignedByte(a.b0, c.f0) > SignedByte(b.b0, c.f0), SignedByte(a.b1, c.f1) > SignedByte(b.b1, c.f1),
          SignedByte(a.b2, c.f2) > SignedByte(b.b2, c.f2), SignedByte(a.b3, c.f3) > SignedByte(b.b3, c.f3))
  }

  function Greater(op: Op, mode: Mode, a: Word, b: Word): Flags {
    var g := GreaterVec(op, mode, a, b);
    match mode
    case Mode32 =>
      var all := g.f3 || (a.b3 == b.b3 && (g.f2 || (a.b2 == b.b2 && (g.f1 || (a.b1 == b.b1 && g.f0)))));
      Flags(all, all, all, all)
    case Mode16 =>
      var lo, hi := g.f1 || (a.b1 == b.b1 && g.f0), g.f3 || (a.b3 == b.b3 && g.f2);
      Flags(lo, lo, hi, hi)
    case Mode8 => g
  }

  function Equal(mode: Mode, a: Word, b: Word): Flags {
    match mode
    case Mode32 => var all := a.b0 == b.b0 && a.b1 == b.b1 && a.b2 == b.b2 && a.b3 == b.b3; Flags(all, all, all, all)
    case Mode16 =>
      var lo, hi := a.b0 == b.b0 && a.b1 == b.b1, a.b2 == b.b2 && a.b3 == b.b3;
      Flags(lo, lo, hi, hi)
    case Mode8 => Flags(a.b0 == b.b0, a.b1 == b.b1, a.b2 == b.b2, a.b3 == b.b3)
  }

  function CmpFlag(op: Op, greater: bool, equal: bool): bool {
    match op
    case Ne => !equal
    case Gt(_) => greater
    case Ge(_) => greater || equal
    case Lt(_) => !(greater || equal)
    case Le(_) => !greater
    case _ => equal
  }

  function CmpFlags(op: Op, g: Flags, e: Flags): Flags {
    Flags(CmpFlag(op, g.f0, e.f0), CmpFlag(op, g.f1, e.f1), CmpFlag(op, g.f2, e.f2), CmpFlag(op, g.f3, e.f3))
  }

  function CmpResult(op: Op, mode: Mode, a: Word, b: Word): Flags {
    CmpFlags(op, Greater(op, mode, a, b), Equal(mode, a, b))
  }

  /** The flag of lane k, the flags of a lane's bytes being the same. */
  function LaneFlag(f: Flags, mode: Mode, k: nat): bool {
    match mode
    case Mode32 => f.f3
    case Mode16 => if k == 0 then f.f1 else f.f3
    case Mode8 => if k == 0 then f.f0 else if k == 1 then f.f1 else if k == 2 then f.f2 else f.f3
  }

  predicate Uniform(f: Flags, mode: Mode) {
    match mode
    case Mode32 => f.f0 == f.f1 == f.f2 == f.f3
    case Mode16 => f.f0 == f.f1 && f.f2 == f.f3
    case Mode8 => true
  }

  /** Bytes compared from the top decide like the numbers. */
  lemma PairOrder(x0: Byte, x1: Byte, y0: Byte, y1: Byte, signed: bool)
    ensures (SignedByte(x1, signed) > SignedByte(y1, signed) || (x1 == y1 && x0 > y0))
         <==> Number(Pair(x0, x1), Mode16, signed) > Number(Pair(y0, y1), Mode16, signed)
  {
  }

  lemma WordOrder(x: Word, y: Word, signed: bool)
    ensures (SignedByte(x.b3, signed) > SignedByte(y.b3, signed)
             || (x.b3 == y.b3 && (x.b2 > y.b2 || (x.b2 == y.b2 && (x.b1 > y.b1 || (x.b1 == y.b1 && x.b0 > y.b0))))))
         <==> Number(Value(x), Mode32, signed) > Number(Value(y), Mode32, signed)
  {
  }

  lemma Greater32(op: Op, a: Word, b: Word)
    ensures Greater(op, Mode32, a, b).f3
         <==> Number(Value(a), Mode32, IsSigned(op)) > Number(Value(b), Mode32, IsSigned(op))
  {
    WordOrder(a, b, IsSigned(op));
  }

  lemma Greater16(op: Op, a: Word, b: Word)
    ensures var g, s := Greater(op, Mode16, a, b), IsSigned(op);
      && (g.f1 <==> Number(Pair(a.b0, a.b1), Mode16, s) > Number(Pair(b.b0, b.b1), Mode16, s))
      && (g.f3 <==> Number(Pair(a.b2, a.b3), Mode16, s) > Number(Pair(b.b2, b.b3), Mode16, s))
  {
    PairOrder(a.b0, a.b1, b.b0, b.b1, IsSigned(op));
    PairOrder(a.b2, a.b3, b.b2, b.b3, IsSigned(op));
  }

  lemma Greater8(op: Op, a: Word, b: Word)
    ensures var g, s := Greater(op, Mode8, a, b), IsSigned(op);
      && (g.f0 <==> Number(a.b0, Mode8, s) > Number(b.b0, Mode8, s))
      && (g.f1 <==> Number(a.b1, Mode8, s) > Number(b.b1, Mode8, s))
      && (g.f2 <==> Number(a.b2, Mode8, s) > Number(b.b2, Mode8, s))
      && (g.f3 <==> Number(a.b3, Mode8, s) > Number(b.b3, Mode8, s))
  {
  }

  /** The greater flag of a lane compares its numbers. */
  lemma GreaterLanes(op: Op, mode: Mode, a: Word, b: Word, k: nat)
    requires k < Count(mode)
    ensures Uniform(Greater(op, mode, a, b), mode)
    ensures LaneFlag(Greater(op, mode, a, b), mode, k)
         <==> Number(Lane(a, mode, k), mode, IsSigned(op)) > Number(Lane(b, mode, k), mode, IsSigned(op))
  {
    match mode
    case Mode32 => Greater32(op, a, b);
    case Mode16 => Greater16(op, a, b);
    case Mode8 => Greater8(op, a, b);
  }

  lemma PairInjective(x0: Byte, x1: Byte, y0: Byte, y1: Byte)
    ensures Pair(x0, x1) == Pair(y0, y1) <==> x0 == y0 && x1 == y1
  {
  }

  lemma HalvesInjective(x0: nat, x1: nat, y0: nat, y1: nat)
    requires x0 < 65536 && y0 < 65536
    ensures x0 + 65536 * x1 == y0 + 65536 * y1 <==> x0 == y0 && x1 == y1
  {
  }

  lemma ValueInjective(x: Word, y: Word)
    ensures Value(x) == Value(y) <==> x.b0 == y.b0 && x.b1 == y.b1 && x.b2 == y.b2 && x.b3 == y.b3
  {
    PairInjective(x.b0, x.b1, y.b0, y.b1);
    PairInjective(x.b2, x.b3, y.b2, y.b3);
    HalvesInjective(Pair(x.b0, x.b1), Pair(x.b2, x.b3), Pair(y.b0, y.b1), Pair(y.b2, y.b3));
  }

  lemma EqualLanes(mode: Mode, a: Word, b: Word, k: nat)
    requires k < Count(mode)
    ensures Uniform(Equal(mode, a, b), mode)
    ensures LaneFlag(Equal(mode, a, b), mode, k) <==> Lane(a, mode, k) == Lane(b, mode, k)
  {
    match mode
    case Mode32 => ValueInjective(a, b);
    case Mode16 => PairInjective(a.b0, a.b1, b.b0, b.b1); PairInjective(a.b2, a.b3, b.b2, b.b3);
    case Mode8 =>
  }

  predicate IsComparison(op: Op) { op.Eq? || op.Ne? || op.Gt? || op.Ge? || op.Lt? || op.Le? }

  /** The comparison of two lanes' values, as signed numbers if the operator says so. */
  predicate Holds(op: Op, mode: Mode, x: nat, y: nat)
    requires IsComparison(op)
  {
    match op
    case Eq => x == y
    case Ne => x != y
    case Gt(signed) => Number(x, mode, signed) > Number(y, mode, signed)
    case Ge(signed) => Number(x, mode, signed) >= Number(y, mode, signed)
    case Lt(signed) => Number(x, mode, signed) < Number(y, mode, signed)
    case Le(signed) => Number(x, mode, signed) <= Number(y, mode, signed)
  }

  lemma FlagsUniform(op: Op, mode: Mode, g: Flags, e: Flags)
    requires Uniform(g, mode) && Uniform(e, mode)
    ensures Uniform(CmpFlags(op, g, e), mode)
  {
  }

  lemma FlagsPointwise(op: Op, mode: Mode, g: Flags, e: Flags, k: nat)
    ensures LaneFlag(CmpFlags(op, g, e), mode, k) == CmpFlag(op, LaneFlag(g, mode, k), LaneFlag(e, mode, k))
  {
  }

  lemma NumberInjective(x: nat, y: nat, mode: Mode, signed: bool)
    requires x < Modulus(mode) && y < Modulus(mode)
    ensures Number(x, mode, signed) == Number(y, mode, signed) <==> x == y
  {
  }

  /** Every comparison, signed or not, is made lane by lane, all bytes of a lane alike. */
  lemma ComparisonLanes(op: Op, mode: Mode, a: Word, b: Word, k: nat)
    requires IsComparison(op) && k < Count(mode)
    ensures Uniform(CmpResult(op, mode, a, b), mode)
    ensures LaneFlag(CmpResult(op, mode, a, b), mode, k) <==> Holds(op, mode, Lane(a, mode, k), Lane(b, mode, k))
  {
    GreaterLanes(op, mode, a, b, k);
    EqualLanes(mode, a, b, k);
    FlagsUniform(op, mode, Greater(op, mode, a, b), Equal(mode, a, b));
    FlagsPointwise(op, mode, Greater(op, mode, a, b), Equal(mode, a, b), k);
    NumberInjective(Lane(a, mode, k), Lane(b, mode, k), mode, IsSigned(op));
  }

  // ----------------------------------------------------------------- minimum, maximum

  predicate DoMin(op: Op) { op.Min? || op.Clip? || op.ClipU? }

  function Select(sel: bool, x: Byte, y: Byte): Byte { if sel then x else y }

  /** The bytes of a where the flag differs from m, else those of b. */
  function SelectBytes(f: Flags, m: bool, a: Word, b: Word): Word {
    Word(Select(f.f0 != m, a.b0, b.b0), Select(f.f1 != m, a.b1, b.b1),
         Select(f.f2 != m, a.b2, b.b2), Select(f.f3 != m, a.b3, b.b3))
  }

  /** result_minmax */
  function MinMax(op: Op, mode: Mode, a: Word, b: Word): Word {
    SelectBytes(Greater(op, mode, a, b), DoMin(op), a, if op == Abs then AdderResult(op, mode, a, b) else b)
  }

  /** Bytes selected lane-wise make lanes selected whole. */
  lemma SelectLanes(f: Flags, m: bool, mode: Mode, a: Word, b: Word, k: nat)
    requires Uniform(f, mode) && k < Count(mode)
    ensures Lane(SelectBytes(f, m, a, b), mode, k)
         == if LaneFlag(f, mode, k) != m then Lane(a, mode, k) else Lane(b, mode, k)
  {
  }

  /** result_minmax lane by lane. */
  lemma MinMaxSelects(op: Op, mode: Mode, a: Word, b: Word, other: Word, k: nat)
    requires k < Count(mode)
    requires other == if op == Abs then AdderResult(op, mode, a, b) else b
    ensures Lane(MinMax(op, mode, a, b), mode, k)
         == if (Number(Lane(a, mode, k), mode, IsSigned(op)) > Number(Lane(b, mode, k), mode, IsSigned(op)))
               != DoMin(op)
            then Lane(a, mode, k) else Lane(other, mode, k)
  {
    GreaterLanes(op, mode, a, b, k);
    SelectLanes(Greater(op, mode, a, b), DoMin(op), mode, a, other, k);
  }

  /** Each lane of the result is the smaller or the greater of the lanes' numbers. */
  lemma MinMaxLanes(op: Op, mode: Mode, a: Word, b: Word, k: nat)
    requires (op.Min? || op.Max?) && k < Count(mode)
    ensures var x, y := Number(Lane(a, mode, k), mode, op.signed), Number(Lane(b, mode, k), mode, op.signed);
      Number(Lane(MinMax(op, mode, a, b), mode, k), mode, op.signed)
        == if op.Min? then (if x <= y then x else y) else (if x >= y then x else y)
  {
    MinMaxSelects(op, mode, a, b, b, k);
  }

  // ------------------------------------------------------------------ absolute value

  lemma Difference32(a: Word, b: Word)
    ensures Value(RippleOf(Abs, Mode32, a, b)) == SubMod(Value(b), Value(a), 0x1_0000_0000)
  {
    RippleValue(Not(a), b, true);
    NotValues(a);
  }

  lemma Differences16(a: Word, b: Word)
    ensures var r := RippleOf(Abs, Mode16, a, b);
      && Pair(r.b0, r.b1) == SubMod(Pair(b.b0, b.b1), Pair(a.b0, a.b1), 0x1_0000)
      && Pair(r.b2, r.b3) == SubMod(Pair(b.b2, b.b3), Pair(a.b2, a.b3), 0x1_0000)
  {
    RipplePairs(Not(a), b, true);
    NotValues(a);
  }

  lemma Differences8(a: Word, b: Word)
    ensures var r := RippleOf(Abs, Mode8, a, b);
      && r.b0 == SubMod(b.b0, a.b0, 0x100) && r.b1 == SubMod(b.b1, a.b1, 0x100)
      && r.b2 == SubMod(b.b2, a.b2, 0x100) && r.b3 == SubMod(b.b3, a.b3, 0x100)
  {
  }

  lemma RippleDifferences(mode: Mode, a: Word, b: Word, k: nat)
    requires k < Count(mode)
    ensures Lane(RippleOf(Abs, mode, a, b), mode, k) == SubMod(Lane(b, mode, k), Lane(a, mode, k), Modulus(mode))
  {
    match mode
    case Mode32 => Difference32(a, b);
    case Mode16 => Differences16(a, b);
    case Mode8 => Differences8(a, b);
  }

  /** For ABS the adder computes b - a in each lane. */
  lemma DifferenceLanes(mode: Mode, a: Word, b: Word, k: nat)
    requires k < Count(mode)
    ensures Lane(AdderResult(Abs, mode, a, b), mode, k) == SubMod(Lane(b, mode, k), Lane(a, mode, k), Modulus(mode))
  {
    AdderIsRipple(Abs, mode, a, b);
    RippleDifferences(mode, a, b, k);
  }

  lemma MagnitudeByNegation(x: nat, mode: Mode)
    requires x < Modulus(mode)
    ensures var n := Number(x, mode, true);
      (if n > 0 then x else SubMod(0, x, Modulus(mode))) == if n >= 0 then n else 0 - n
  {
  }

  /** With a lane of operand b zero, the result's lane is the magnitude of a's. */
  lemma AbsLanes(mode: Mode, a: Word, b: Word, k: nat)
    requires k < Count(mode) && Lane(b, mode, k) == 0
    ensures var x := Number(Lane(a, mode, k), mode, true);
      Lane(MinMax(Abs, mode, a, b), mode, k) == if x >= 0 then x else 0 - x
  {
    DifferenceLanes(mode, a, b, k);
    MinMaxSelects(Abs, mode, a, b, AdderResult(Abs, mode, a, b), k);
    MagnitudeByNegation(Lane(a, mode, k), mode);
  }

  // ----------------------------------------------------------------------- clipping

  function SignedValue(w: Word): int { Number(Value(w), Mode32, true) }

  /** The two arms of clip_result, from result_minmax and the adder's sign. */
  function ClipSigned(a: Word, b: Word, minmax: Word, negative: bool): Word {
    if negative || a == Not(b) then Not(b) else minmax
  }

  function ClipUnsigned(a: Word, minmax: Word): Word {
    if a.b3 >= 128 || a == Word(0, 0, 0, 0) then Word(0, 0, 0, 0) else minmax
  }

  /** clip_result in 32-bit mode. */
  function ClipResult(op: Op, a: Word, b: Word): Word
    requires op == Clip || op == ClipU
  {
    var minmax := MinMax(op, Mode32, a, b);
    if op == ClipU then ClipUnsigned(a, minmax)
    else ClipSigned(a, b, minmax, Expanded(op, Mode32, a, b) < 0)
  }

  lemma SignOfGroups(g0: nat, g1: nat, g2: nat, t: int)
    requires g0 < 512 && g1 < 512 && g2 < 512
    ensures g0 + 512 * g1 + 262144 * g2 + 134217728 * t < 0 <==> t < 0
  {
  }

  lemma SignOfBytes(d0: nat, d1: nat, d2: nat, t: int)
    requires d0 < 256 && d1 < 256 && d2 < 256
    ensures d0 + 256 * d1 + 65536 * d2 + 16777216 * t < 0 <==> t < 0
  {
  }

  /** The top byte with its sign carries the sign of the whole. */
  lemma SignedParts(w: Word, s: Separators)
    ensures Signed36(AdderIn(w, s)) == Group(w.b0, s.s0) + 512 * Group(w.b1, s.s1) + 262144 * Group(w.b2, s.s2)
         + 134217728 * (2 * SignedByte(w.b3, true) + (if s.s3 then 1 else 0))
    ensures SignedValue(w) == w.b0 + 256 * w.b1 + 65536 * w.b2 + 16777216 * SignedByte(w.b3, true)
  {
  }

  lemma SignOfGroupSum(p0: nat, p1: nat, p2: nat, p3: int, q0: nat, q1: nat, q2: nat, q3: int)
    requires p0 < 512 && p1 < 512 && p2 < 512 && q0 < 512 && q1 < 512 && q2 < 512
    ensures var g0 := AddGroup(p0, q0, 0); var g1 := AddGroup(p1, q1, g0.carry); var g2 := AddGroup(p2, q2, g1.carry);
      (p0 + 512 * p1 + 262144 * p2 + 134217728 * p3) + (q0 + 512 * q1 + 262144 * q2 + 134217728 * q3) < 0 <==>
      p3 + q3 + g2.carry < 0
  {
    var g0 := AddGroup(p0, q0, 0);
    var g1 := AddGroup(p1, q1, g0.carry);
    var g2 := AddGroup(p2, q2, g1.carry);
    SignOfGroups(g0.digit, g1.digit, g2.digit, p3 + q3 + g2.carry);
  }

  lemma SignOfByteSum(x: Word, y: Word, x3: int, y3: int)
    ensures var d0 := AddByte(x.b0, y.b0, 1); var d1 := AddByte(x.b1, y.b1, d0.carry);
      var d2 := AddByte(x.b2, y.b2, d1.carry);
      (x.b0 + 256 * x.b1 + 65536 * x.b2 + 16777216 * x3)
      + (y.b0 + 256 * y.b1 + 65536 * y.b2 + 16777216 * y3) + 1 < 0 <==>
      x3 + y3 + d2.carry < 0
  {
    var d0 := AddByte(x.b0, y.b0, 1);
    var d1 := AddByte(x.b1, y.b1, d0.carry);
    var d2 := AddByte(x.b2, y.b2, d1.carry);
    SignOfBytes(d0.digit, d1.digit, d2.digit, x3 + y3 + d2.carry);
  }

  lemma CarriesAgree(a: Word, b: Word)
    ensures var g0 := AddGroup(Group(a.b0, true), Group(b.b0, true), 0);
      var g1 := AddGroup(Group(a.b1, true), Group(b.b1, false), g0.carry);
      var d0 := AddByte(a.b0, b.b0, 1); var d1 := AddByte(a.b1, b.b1, d0.carry);
      AddGroup(Group(a.b2, true), Group(b.b2, false), g1.carry).carry == AddByte(a.b2, b.b2, d1.carry).carry
  {
    var g0 := AddGroup(Group(a.b0, true), Group(b.b0, true), 0);
    var g1 := AddGroup(Group(a.b1, true), Group(b.b1, false), g0.carry);
    SeparatorWorks(a.b0, b.b0, true, true, 0);
    SeparatorWorks(a.b1, b.b1, true, false, g0.carry);
    SeparatorWorks(a.b2, b.b2, true, false, g1.carry);
  }

  /** Bit 36 of the sum is the sign of a + b + 1. */
  lemma SignBitOfSum(a: Word, b: Word)
    ensures Expanded(Clip, Mode32, a, b) < 0 <==> SignedValue(a) + SignedValue(b) + 1 < 0
  {
    var sa, sb := SeparatorsA(Clip, Mode32), SeparatorsB(Clip, Mode32);
    var a3, b3 := SignedByte(a.b3, true), SignedByte(b.b3, true);
    SignedParts(a, sa);
    SignedParts(b, sb);
    CarriesAgree(a, b);
    SignOfGroupSum(Group(a.b0, true), Group(a.b1, true), Group(a.b2, true), 2 * a3 + 1,
                   Group(b.b0, true), Group(b.b1, false), Group(b.b2, false), 2 * b3);
    SignOfByteSum(a, b, a3, b3);
  }

  lemma NotSigned(w: Word)
    ensures SignedValue(Not(w)) == 0 - SignedValue(w) - 1
  {
  }

  function Clamp(x: int, low: int, high: int): int { if x < low then low else if x > high then high else x }

  /** With a and b signed, the minimum is the word of the smaller. */
  lemma MinValue(op: Op, a: Word, b: Word)
    requires op == Clip || op == ClipU
    ensures SignedValue(MinMax(op, Mode32, a, b))
         == if SignedValue(a) <= SignedValue(b) then SignedValue(a) else SignedValue(b)
  {
    MinMaxSelects(op, Mode32, a, b, b, 0);
  }

  lemma SignedArmClamps(a: Word, b: Word, minmax: Word, negative: bool)
    requires SignedValue(b) >= 0 && (negative <==> SignedValue(a) + SignedValue(b) + 1 < 0)
    requires SignedValue(minmax) == if SignedValue(a) <= SignedValue(b) then SignedValue(a) else SignedValue(b)
    ensures SignedValue(ClipSigned(a, b, minmax, negative))
         == Clamp(SignedValue(a), 0 - SignedValue(b) - 1, SignedValue(b))
  {
    NotSigned(b);
  }

  lemma SignOfWord(w: Word)
    ensures SignedValue(w) < 0 <==> w.b3 >= 128
    ensures w == Word(0, 0, 0, 0) ==> SignedValue(w) == 0
  {
  }

  lemma UnsignedArmClamps(a: Word, b: Word, minmax: Word)
    requires SignedValue(b) >= 0
    requires SignedValue(minmax) == if SignedValue(a) <= SignedValue(b) then SignedValue(a) else SignedValue(b)
    ensures SignedValue(ClipUnsigned(a, minmax)) == Clamp(SignedValue(a), 0, SignedValue(b))
  {
    SignOfWord(a);
    SignOfWord(ClipUnsigned(a, minmax));
  }

  /** For every b that is not negative, CLIP clamps a between -b-1 and b, CLIPU between 0
      and b. */
  lemma ClipClamps(op: Op, a: Word, b: Word)
    requires (op == Clip || op == ClipU) && SignedValue(b) >= 0
    ensures SignedValue(ClipResult(op, a, b))
         == Clamp(SignedValue(a), if op == Clip then 0 - SignedValue(b) - 1 else 0, SignedValue(b))
  {
    MinValue(op, a, b);
    if op == Clip {
      SignBitOfSum(a, b);
      SignedArmClamps(a, b, MinMax(op, Mode32, a, b), Expanded(op, Mode32, a, b) < 0);
    } else {
      UnsignedArmClamps(a, b, MinMax(op, Mode32, a, b));
    }
  }
}
