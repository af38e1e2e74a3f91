/** Bit vectors and their unsigned values. A vector is little endian: v[i] is bit i. */
module Bits {

  type Vec = seq<bool>

  function Pow2(n: nat): (p: nat)
    ensures p > 0
  {
    if n == 0 then 1 else 2 * Pow2(n - 1)
  }

  /** m doubled s times: 2^s * m. */
  function Shl(m: nat, s: nat): nat {
    if s == 0 then m else 2 * Shl(m, s - 1)
  }

  lemma {:induction false} ShlScales(m: nat, s: nat)
    ensures Shl(m, s) == Pow2(s) * m
  {
    if s > 0 {
      ShlScales(m, s - 1);
      assert Pow2(s) * m == 2 * (Pow2(s - 1) * m);
    }
  }

  lemma {:induction false} ShlMono(x: nat, y: nat, s: nat)
    requires x < y
    ensures Shl(x, s) < Shl(y, s)
  {
    if s > 0 { ShlMono(x, y, s - 1); }
  }

  lemma {:induction false} ShlPow2(k: nat, s: nat)
    ensures Shl(Pow2(k), s) == Pow2(k + s)
  {
    if s > 0 { ShlPow2(k, s - 1); }
  }

  lemma {:induction false} ShlAdd(x: nat, y: nat, s: nat)
    ensures Shl(x, s) + Shl(y, s) == Shl(x + y, s)
  {
    if s > 0 { ShlAdd(x, y, s - 1); }
  }

  /** Shifting out all leading zeros of a w-bit number fills its top bit. */
  lemma ShlFills(x: nat, w: nat, s: nat)
    requires s < w && Pow2(w - 1 - s) <= x < Pow2(w - s)
    ensures Pow2(w - 1) <= Shl(x, s) < Pow2(w)
  {
    ShlPow2(w - 1 - s, s);
    ShlPow2(w - s, s);
    ShlMono(x, Pow2(w - s), s);
    if Pow2(w - 1 - s) < x { ShlMono(Pow2(w - 1 - s), x, s); }
  }

  lemma ShlComplement(x: nat, m: nat, k: nat, s: nat)
    requires x + m == Pow2(k)
    ensures Shl(x, s) + Shl(m, s) == Pow2(k + s)
  {
    ShlAdd(x, m, s);
    ShlPow2(k, s);
  }

  /** n added q times: n * q, kept out of the solver's nonlinear arithmetic. */
  function Times(n: nat, q: nat): nat {
    if q == 0 then 0 else n + Times(n, q - 1)
  }

  lemma {:induction false} TimesIsProduct(n: nat, q: nat)
    ensures Times(n, q) == n * q
  {
    if q > 0 { TimesIsProduct(n, q - 1); }
  }

  lemma {:induction false} TimesTwice(n: nat, q: nat)
    ensures Times(2 * n, q) == Times(n, 2 * q)
  {
    if q > 0 {
      TimesTwice(n, q - 1);
      assert Times(n, 2 * q) == n + (n + Times(n, 2 * q - 2));
    }
  }

  lemma {:induction false} TimesAtLeast(n: nat, q: nat)
    requires n > 0
    ensures Times(2 * n, q) >= 2 * q
  {
    if q > 0 { TimesAtLeast(n, q - 1); }
  }

  function Bit(b: bool): nat { if b then 1 else 0 }

  /** The unsigned value of a vector. */
  function ToNat(v: Vec): (x: nat)
    ensures x < Pow2(|v|)
  {
    if v == [] then 0 else Bit(v[0]) + 2 * ToNat(v[1..])
  }

  /** The w low bits of x. */
  function FromNat(x: nat, w: nat): (v: Vec)
    ensures |v| == w
    decreases w
  {
    if w == 0 then [] else [x % 2 == 1] + FromNat(x / 2, w - 1)
  }

  function Zeros(n: nat): (v: Vec)
    ensures |v| == n && forall i :: 0 <= i < n ==> !v[i]
  {
    seq(n, i => false)
  }

  function Reverse(v: Vec): (r: Vec)
    ensures |r| == |v| && forall i :: 0 <= i < |v| ==> r[i] == v[|v| - 1 - i]
  {
    seq(|v|, i requires 0 <= i < |v| => v[|v| - 1 - i])
  }

  function Invert(v: Vec): (r: Vec)
    ensures |r| == |v| && forall i :: 0 <= i < |v| ==> r[i] == !v[i]
  {
    seq(|v|, i requires 0 <= i < |v| => !v[i])
  }

  /** Logical right shift: zeros enter at the top, k low bits leave. */
  function ShiftRight(v: Vec, k: nat): (r: Vec)
    requires k <= |v|
    ensures |r| == |v|
  {
    v[k..] + Zeros(k)
  }

  lemma {:induction false} Pow2Add(m: nat, n: nat)
    ensures Pow2(m + n) == Pow2(m) * Pow2(n)
  {
    if m > 0 {
      Pow2Add(m - 1, n);
      assert Pow2(m + n) == 2 * Pow2(m - 1 + n);
    }
  }

  lemma {:induction false} Pow2Mono(m: nat, n: nat)
    requires m <= n
    ensures Pow2(m) <= Pow2(n)
  {
    if m < n { Pow2Mono(m, n - 1); }
  }

  lemma Pow2Is32()
    ensures Pow2(32) == 0x1_0000_0000 && Pow2(31) == 0x8000_0000
    ensures Pow2(16) == 0x1_0000 && Pow2(8) == 256
  {
    assert Pow2(8) == 256;
    Pow2Add(8, 8);
    Pow2Add(16, 16);
  }

  /** The w low bits of a number below 2^w are the number. */
  lemma {:induction false} FromToNat(x: nat, w: nat)
    requires x < Pow2(w)
    ensures ToNat(FromNat(x, w)) == x
  {
    if w > 0 {
      FromToNat(x / 2, w - 1);
      assert FromNat(x, w)[1..] == FromNat(x / 2, w - 1);
    }
  }

  lemma {:induction false} ConcatValue(lo: Vec, hi: Vec)
    ensures ToNat(lo + hi) == ToNat(lo) + Pow2(|lo|) * ToNat(hi)
  {
    if lo == [] {
      assert lo + hi == hi;
    } else {
      ConcatValue(lo[1..], hi);
      assert (lo + hi)[1..] == lo[1..] + hi;
      assert Pow2(|lo|) * ToNat(hi) == 2 * (Pow2(|lo| - 1) * ToNat(hi));
    }
  }

  lemma {:induction false} ZerosValue(n: nat)
    ensures ToNat(Zeros(n)) == 0
  {
    if n > 0 {
      ZerosValue(n - 1);
      assert Zeros(n)[1..] == Zeros(n - 1);
    }
  }

  /** Ones' complement subtracts from the all-ones word. */
  lemma {:induction false} InvertValue(v: Vec)
    ensures ToNat(Invert(v)) == Pow2(|v|) - 1 - ToNat(v)
  {
    if v != [] {
      InvertValue(v[1..]);
      assert Invert(v)[1..] == Invert(v[1..]);
    }
  }

  lemma {:induction false} ZeroValue(v: Vec)
    ensures ToNat(v) == 0 <==> forall i :: 0 <= i < |v| ==> !v[i]
  {
    if v != [] {
      ZeroValue(v[1..]);
      if ToNat(v) == 0 {
        forall i | 0 <= i < |v| ensures !v[i] { if i > 0 { assert v[i] == v[1..][i - 1]; } }
      } else if !v[0] {
        var i :| 0 <= i < |v[1..]| && v[1..][i];
        assert v[i + 1];
      }
    }
  }

  /** The highest set bit brackets the value. */
  lemma TopBitBounds(v: Vec, k: nat)
    requires k < |v| && v[k] && forall i :: k < i < |v| ==> !v[i]
    ensures Pow2(k) <= ToNat(v) < Pow2(k + 1)
  {
    ConcatValue(v[..k + 1], v[k + 1..]);
    assert v[..k + 1] + v[k + 1..] == v;
    ZeroValue(v[k + 1..]);
    ConcatValue(v[..k], [v[k]]);
    assert v[..k] + [v[k]] == v[..k + 1];
    assert ToNat([v[k]]) == 1;
  }

  /** Bit k of a 32-bit style word decides whether its value is in the upper half. */
  lemma SignBit(v: Vec)
    requires |v| > 0
    ensures v[|v| - 1] <==> ToNat(v) >= Pow2(|v| - 1)
  {
    var k := |v| - 1;
    ConcatValue(v[..k], [v[k]]);
    assert v[..k] + [v[k]] == v;
    assert ToNat([v[k]]) == Bit(v[k]);
  }

  lemma PrependValue(b: bool, v: Vec)
    ensures ToNat([b] + v) == Bit(b) + 2 * ToNat(v)
  {
    assert ([b] + v)[1..] == v;
  }

  lemma {:induction false} AppendZeroValue(v: Vec)
    ensures ToNat(v + [false]) == ToNat(v)
  {
    if v != [] {
      AppendZeroValue(v[1..]);
      assert (v + [false])[1..] == v[1..] + [false];
    }
  }

  lemma ReverseEnds(v: Vec, b: bool)
    requires |v| > 0
    ensures Reverse(v) == Reverse(v[1..]) + [v[0]]
    ensures Reverse(v[1..] + [b]) == [b] + Reverse(v[1..])
  {
  }

  /** A left shift done as the shifter does it: reverse, shift right, reverse back. */
  function ShiftLeft(v: Vec, k: nat): (r: Vec)
    requires k <= |v|
    ensures |r| == |v|
  {
    Reverse(ShiftRight(Reverse(v), k))
  }

  lemma ShiftLeftValue(lo: Vec, hi: Vec)
    ensures ToNat(ShiftLeft(lo + hi, |hi|)) == Shl(ToNat(lo), |hi|)
  {
    ShlScales(ToNat(lo), |hi|);
    assert ShiftLeft(lo + hi, |hi|) == Zeros(|hi|) + lo;
    ConcatValue(Zeros(|hi|), lo);
    ZerosValue(|hi|);
  }
}
