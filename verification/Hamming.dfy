/** The extended Hamming code (hamming_encoder, hamming_decoder) for every number of
    information bits. A codeword is indexed as in the decoder: bit 0 is the extended
    parity bit, bits 1 .. n the Hamming code. */
module Hamming {
  import opened Bits
  import F = FindFirstOne

  // ------------------------------------------------------------------ parameters

  /** m is the least positive number of check bits for k information bits. */
  predicate IsM(m: nat, k: nat) {
    m >= 1 && Pow2(m) >= m + k + 1 && forall j {:trigger Pow2(j)} :: 1 <= j < m ==> Pow2(j) < j + k + 1
  }

  method CalculateM(k: nat) returns (m: nat)
    ensures IsM(m, k)
  {
    m := 1;
    while Pow2(m) < m + k + 1
      invariant m >= 1
      invariant forall j {:trigger Pow2(j)} :: 1 <= j < m ==> Pow2(j) < j + k + 1
      decreases m + k + 1 - Pow2(m)
    {
      m := m + 1;
    }
  }

  /** 2**$clog2(x) == x */
  predicate PowerOfTwo(x: nat)
    requires x >= 1
  {
    Pow2(F.Clog2(x)) == x
  }

  /** |(2**p & x) */
  predicate HasBit(x: nat, p: nat) {
    if p == 0 then x % 2 == 1 else HasBit(x / 2, p - 1)
  }

  // ------------------------------------------------------- parities over a codeword

  /** The exclusive or of bits 1 .. j of cw whose index has bit p. */
  function Check(cw: Vec, p: nat, j: nat): bool
    requires j < |cw|
  {
    if j == 0 then false else Check(cw, p, j - 1) != (HasBit(j, p) && cw[j])
  }

  /** All checks of a codeword, one per index bit. */
  function Checks(cw: Vec, m: nat): (s: Vec)
    requires |cw| >= 1
    ensures |s| == m
  {
    seq(m, p requires 0 <= p < m => Check(cw, p, |cw| - 1))
  }

  function Parity(v: Vec): bool {
    if v == [] then false else Parity(v[..|v| - 1]) != v[|v| - 1]
  }

  /** calculate_p in the encoder and calculate_syndrome in the decoder are this loop. */
  method CalculateChecks(cw: Vec, m: nat) returns (s: Vec)
    requires |cw| >= 1
    ensures s == Checks(cw, m)
  {
    s := Zeros(m);
    for p := 0 to m
      invariant |s| == m
      invariant forall q :: 0 <= q < p ==> s[q] == Check(cw, q, |cw| - 1)
      invariant forall q :: p <= q < m ==> !s[q]
    {
      for i := 1 to |cw|
        invariant |s| == m && s[p] == Check(cw, p, i - 1)
        invariant forall q :: 0 <= q < p ==> s[q] == Check(cw, q, |cw| - 1)
        invariant forall q :: p < q < m ==> !s[q]
      {
        if HasBit(i, p) { s := s[p := s[p] != cw[i]]; }
      }
    }
  }

  // ---------------------------------------------------------------------- encoder

  /** Every position that is not a power of two receives d[0]: the data index is
      incremented after the loop over positions, not inside it. */
  function DataPlaced(d: Vec, n: nat): (cw: Vec)
    requires |d| >= 1
    ensures |cw| == n + 1
  {
    seq(n + 1, i requires 0 <= i <= n => i >= 1 && !PowerOfTwo(i) && d[0])
  }

  method StoreDbits(d: Vec, n: nat) returns (cw: Vec)
    requires |d| >= 1
    ensures cw == DataPlaced(d, n)
  {
    cw := Zeros(n + 1);
    var bitIdx := 0;
    for i := 1 to n + 1
      invariant |cw| == n + 1
      invariant forall j :: 0 <= j < i ==> cw[j] == DataPlaced(d, n)[j]
      invariant forall j :: i <= j <= n ==> !cw[j]
    {
      if !PowerOfTwo(i) { cw := cw[i := d[bitIdx]]; }
    }
    bitIdx := bitIdx + 1;
  }

  /** The check bits in positions 1, 2, 4, ... */
  function ChecksPlaced(cw: Vec, p: Vec): (r: Vec)
    requires forall q {:trigger Pow2(q)} :: 0 <= q < |p| ==> Pow2(q) < |cw|
    ensures |r| == |cw|
  {
    if p == [] then cw
    else ChecksPlaced(cw, p[..|p| - 1])[Pow2(|p| - 1) := p[|p| - 1]]
  }

  method StoreP(cw: Vec, p: Vec) returns (r: Vec)
    requires forall q {:trigger Pow2(q)} :: 0 <= q < |p| ==> Pow2(q) < |cw|
    ensures r == ChecksPlaced(cw, p)
  {
    r := cw;
    for i := 0 to |p|
      invariant r == ChecksPlaced(cw, p[..i])
    {
      assert p[..i + 1][..i] == p[..i];
      r := r[Pow2(i) := p[i]];
    }
    assert p[..|p|] == p;
  }

  /** The check bits have room: 2^(m-1) <= m + k. */
  lemma RoomForChecks(m: nat, k: nat, q: nat)
    requires IsM(m, k) && k >= 1 && q < m
    ensures Pow2(q) <= m + k
  {
    Pow2Mono(q, m - 1);
    if m > 1 { assert Pow2(m - 1) < (m - 1) + k + 1; }
  }

  /** The encoder's codeword, extended parity included. */
  function Codeword(d: Vec, m: nat): (cw: Vec)
    requires |d| >= 1 && IsM(m, |d|)
    ensures |cw| == m + |d| + 1
  {
    var w := DataPlaced(d, m + |d|);
    assert forall q {:trigger Pow2(q)} :: 0 <= q < m ==> Pow2(q) < |w| by {
      forall q {:trigger Pow2(q)} | 0 <= q < m ensures Pow2(q) < |w| { RoomForChecks(m, |d|, q); }
    }
    var c := ChecksPlaced(w, Checks(w, m));
    c[0 := Parity(c[1..])]
  }

  /** q_o: the extended parity bit at the low or at the high end. */
  function Layout(cw: Vec, p0Lsb: bool): (q: Vec)
    requires |cw| >= 1
    ensures |q| == |cw|
  {
    if p0Lsb then cw else cw[1..] + [cw[0]]
  }

  // ---------------------------------------------------------------------- decoder

  /** Back to the decoder's own order. */
  function Located(q: Vec, p0Lsb: bool): (cw: Vec)
    requires |q| >= 1
    ensures |cw| == |q|
  {
    if p0Lsb then q else [q[|q| - 1]] + q[..|q| - 1]
  }

  /** correct_codeword: a write outside the vector has no effect. */
  function Corrected(cw: Vec, syndrome: Vec): Vec {
    var i := ToNat(syndrome);
    if i < |cw| then cw[i := !cw[i]] else cw
  }

  method CorrectCodeword(cw: array<bool>, syndrome: Vec)
    modifies cw
    ensures cw[..] == Corrected(old(cw[..]), syndrome)
  {
    var i := ToNat(syndrome);
    if i < cw.Length { cw[i] := !cw[i]; }
  }

  /** x & y */
  function And(x: nat, y: nat): nat {
    if x == 0 then 0
    else (if x % 2 == 1 && y % 2 == 1 then 1 else 0) + 2 * And(x / 2, y / 2)
  }

  /** is_power_of_2: (x & (x-1)) == 0 */
  predicate IsPowerOf2(x: nat) { x == 0 || And(x, x - 1) == 0 }

  datatype Flags = Flags(sbErr: bool, dbErr: bool, sbFix: bool)

  /** The decoder's outputs for a received word, without output registers. */
  function Status(q: Vec, m: nat, p0Lsb: bool): Flags
    requires |q| >= 1
  {
    var d := Located(q, p0Lsb);
    var parity, syndrome := Parity(d), ToNat(Checks(d, m));
    Flags(parity && syndrome != 0, !parity && syndrome != 0,
          parity && syndrome != 0 && !IsPowerOf2(syndrome))
  }

  function Fixed(q: Vec, m: nat, p0Lsb: bool): Vec
    requires |q| >= 1
  {
    Corrected(Located(q, p0Lsb), Checks(Located(q, p0Lsb), m))
  }

  // ---------------------------------------------------------------- flipped bits

  function Flip(v: Vec, i: nat): (r: Vec)
    requires i < |v|
    ensures |r| == |v|
  {
    v[i := !v[i]]
  }

  lemma {:induction false} FlipCheck(cw: Vec, i: nat, p: nat, j: nat)
    requires i < |cw| && j < |cw|
    ensures Check(Flip(cw, i), p, j) == (Check(cw, p, j) != (1 <= i <= j && HasBit(i, p)))
  {
    if j > 0 { FlipCheck(cw, i, p, j - 1); }
  }

  lemma {:induction false} FlipParity(v: Vec, i: nat)
    requires i < |v|
    ensures Parity(Flip(v, i)) == !Parity(v)
  {
    var front := v[..|v| - 1];
    if i == |v| - 1 {
      assert Flip(v, i)[..|v| - 1] == front;
    } else {
      FlipParity(front, i);
      assert Flip(v, i)[..|v| - 1] == Flip(front, i);
    }
  }

  lemma {:induction false} BitsOf(x: nat, w: nat, p: nat)
    requires p < w
    ensures FromNat(x, w)[p] == HasBit(x, p)
    decreases w
  {
    if p > 0 { BitsOf(x / 2, w - 1, p - 1); }
  }

  /** Numbers below 2^m with the same m low bits are equal. */
  lemma SameBits(x: nat, y: nat, m: nat)
    requires x < Pow2(m) && y < Pow2(m)
    requires forall p :: 0 <= p < m ==> HasBit(x, p) == HasBit(y, p)
    ensures x == y
  {
    forall p | 0 <= p < m ensures FromNat(x, m)[p] == FromNat(y, m)[p] {
      BitsOf(x, m, p);
      BitsOf(y, m, p);
    }
    assert FromNat(x, m) == FromNat(y, m);
    FromToNat(x, m);
    FromToNat(y, m);
  }

  // ------------------------------------------------------------- valid codewords

  predicate ValidCodeword(cw: Vec, m: nat) {
    1 <= |cw| <= Pow2(m) && Checks(cw, m) == Zeros(m) && !Parity(cw)
  }

  lemma {:induction false} PowerHasOneBit(q: nat, p: nat)
    ensures HasBit(Pow2(q), p) == (p == q)
  {
    if q > 0 && p > 0 { PowerHasOneBit(q - 1, p - 1); }
    else if p > 0 { NoBitsInZero(p - 1); }
  }

  lemma {:induction false} NoBitsInZero(p: nat)
    ensures !HasBit(0, p)
  {
    if p > 0 { NoBitsInZero(p - 1); }
  }

  lemma PowersDiffer(q: nat, p: nat)
    requires q < p
    ensures Pow2(q) < Pow2(p)
  {
    Pow2Mono(q, p - 1);
  }

  lemma PowerBetween(l: nat, q: nat)
    requires Pow2(q) <= Pow2(l) && (l > 0 ==> Pow2(l - 1) < Pow2(q))
    ensures l == q
  {
    if l < q { PowersDiffer(l, q); }
    if q < l { Pow2Mono(q, l - 1); }
  }

  lemma PowerOfTwoIsPow2(x: nat, q: nat)
    requires x == Pow2(q)
    ensures PowerOfTwo(x)
  {
    PowerBetween(F.Clog2(x), q);
  }

  lemma {:induction false} SetCheck(cw: Vec, i: nat, b: bool, p: nat, j: nat)
    requires i < |cw| && j < |cw|
    ensures Check(cw[i := b], p, j) == (Check(cw, p, j) != (1 <= i <= j && HasBit(i, p) && cw[i] != b))
  {
    if j > 0 { SetCheck(cw, i, b, p, j - 1); }
  }

  /** Placing check bits in cleared positions adds each to its own check only. */
  lemma {:induction false} PlacedCheck(cw: Vec, p: Vec, q: nat)
    requires forall t {:trigger Pow2(t)} :: 0 <= t < |p| ==> Pow2(t) < |cw| && !cw[Pow2(t)]
    requires |cw| >= 1
    ensures Check(ChecksPlaced(cw, p), q, |cw| - 1) == (Check(cw, q, |cw| - 1) != (q < |p| && p[q]))
  {
    if p != [] {
      var t := |p| - 1;
      PlacedCheck(cw, p[..t], q);
      var r := ChecksPlaced(cw, p[..t]);
      KeepsOthers(cw, p[..t], Pow2(t));
      SetCheck(r, Pow2(t), p[t], q, |cw| - 1);
      PowerHasOneBit(t, q);
    }
  }

  /** Positions that hold no check bit keep their value. */
  lemma {:induction false} KeepsOthers(cw: Vec, p: Vec, i: nat)
    requires forall t {:trigger Pow2(t)} :: 0 <= t < |p| ==> Pow2(t) < |cw|
    requires i < |cw| && (i == 0 || !PowerOfTwo(i) || i >= Pow2(|p|))
    ensures ChecksPlaced(cw, p)[i] == cw[i]
  {
    if p != [] {
      PowersDiffer(|p| - 1, |p|);
      PowerOfTwoIsPow2(Pow2(|p| - 1), |p| - 1);
      KeepsOthers(cw, p[..|p| - 1], i);
    }
  }

  lemma {:induction false} PrependParity(b: bool, v: Vec)
    ensures Parity([b] + v) == (b != Parity(v))
  {
    if v == [] {
      assert [b] + v == [b] && [b][..0] == [];
    } else {
      PrependParity(b, v[..|v| - 1]);
      assert ([b] + v)[..|v|] == [b] + v[..|v| - 1];
    }
  }

  /** Data positions start out clear where check bits go. */
  lemma ChecksStartClear(d: Vec, n: nat, m: nat)
    requires |d| >= 1 && IsM(m, |d|) && n == m + |d|
    ensures forall q {:trigger Pow2(q)} :: 0 <= q < m ==> Pow2(q) <= n && !DataPlaced(d, n)[Pow2(q)]
  {
    forall q {:trigger Pow2(q)} | 0 <= q < m ensures Pow2(q) <= n && !DataPlaced(d, n)[Pow2(q)] {
      RoomForChecks(m, |d|, q);
      PowerOfTwoIsPow2(Pow2(q), q);
    }
  }

  /** Whatever the data, the encoder produces a valid codeword. */
  lemma EncoderIsValid(d: Vec, m: nat)
    requires |d| >= 1 && IsM(m, |d|)
    ensures ValidCodeword(Codeword(d, m), m)
  {
    var n := m + |d|;
    var w := DataPlaced(d, n);
    ChecksStartClear(d, n, m);
    var c := ChecksPlaced(w, Checks(w, m));
    var cw := Codeword(d, m);
    forall q | 0 <= q < m ensures !Checks(cw, m)[q] {
      PlacedCheck(w, Checks(w, m), q);
      SetCheck(c, 0, Parity(c[1..]), q, n);
    }
    assert cw == [cw[0]] + c[1..];
    PrependParity(cw[0], c[1..]);
  }

  /** The set positions of a word, and those among bits 1 .. j whose index has bit p. */
  function OnesIn(v: Vec): set<nat> { set i: nat | i < |v| && v[i] }

  function OnesUnder(cw: Vec, p: nat, j: nat): set<nat>
    requires j < |cw|
  {
    set i: nat | 1 <= i <= j && HasBit(i, p) && cw[i]
  }

  lemma {:induction false} ParityCounts(v: Vec)
    ensures Parity(v) <==> |OnesIn(v)| % 2 == 1
  {
    if v != [] {
      var front, last := v[..|v| - 1], |v| - 1;
      ParityCounts(front);
      assert OnesIn(v) == OnesIn(front) + (if v[last] then {last} else {});
    }
  }

  lemma {:induction false} CheckCounts(cw: Vec, p: nat, j: nat)
    requires j < |cw|
    ensures Check(cw, p, j) <==> |OnesUnder(cw, p, j)| % 2 == 1
  {
    if j == 0 {
      assert OnesUnder(cw, p, j) == {};
    } else {
      CheckCounts(cw, p, j - 1);
      assert OnesUnder(cw, p, j) == OnesUnder(cw, p, j - 1) + (if HasBit(j, p) && cw[j] then {j} else {});
    }
  }

  /** The encoder's word has an even number of ones, altogether and among the positions of
      every index bit. */
  lemma EncoderCounts(d: Vec, m: nat, q: nat)
    requires |d| >= 1 && IsM(m, |d|) && q < m
    ensures var cw := Codeword(d, m); |OnesIn(cw)| % 2 == 0 && |OnesUnder(cw, q, |cw| - 1)| % 2 == 0
  {
    var cw := Codeword(d, m);
    EncoderIsValid(d, m);
    ParityCounts(cw);
    CheckCounts(cw, q, |cw| - 1);
    assert !Checks(cw, m)[q];
  }

  // --------------------------------------------------------------- error patterns

  /** Where a bit of the sent word stands in the decoder's order. */
  function Position(j: nat, n: nat, p0Lsb: bool): nat {
    if p0Lsb then j else if j == n then 0 else j + 1
  }

  lemma LocateFlipped(cw: Vec, j: nat, p0Lsb: bool)
    requires j < |cw|
    ensures Located(Layout(cw, p0Lsb), p0Lsb) == cw
    ensures Position(j, |cw| - 1, p0Lsb) < |cw|
    ensures Located(Flip(Layout(cw, p0Lsb), j), p0Lsb) == Flip(cw, Position(j, |cw| - 1, p0Lsb))
  {
  }

  lemma LocateTwiceFlipped(cw: Vec, j0: nat, j1: nat, p0Lsb: bool)
    requires j0 < |cw| && j1 < |cw| && j0 != j1
    ensures var n := |cw| - 1; var i0, i1 := Position(j0, n, p0Lsb), Position(j1, n, p0Lsb);
      && i0 < |cw| && i1 < |cw| && i0 != i1
      && Located(Flip(Flip(Layout(cw, p0Lsb), j0), j1), p0Lsb) == Flip(Flip(cw, i0), i1)
  {
  }

  /** Flipping position i of a valid codeword makes the syndrome i. */
  lemma FlippedSyndrome(cw: Vec, m: nat, i: nat)
    requires ValidCodeword(cw, m) && i < |cw|
    ensures ToNat(Checks(Flip(cw, i), m)) == i && Parity(Flip(cw, i))
  {
    forall p | 0 <= p < m ensures Checks(Flip(cw, i), m)[p] == FromNat(i, m)[p] {
      assert !Checks(cw, m)[p];
      FlipCheck(cw, i, p, |cw| - 1);
      BitsOf(i, m, p);
      if i == 0 { NoBitsInZero(p); }
    }
    assert Checks(Flip(cw, i), m) == FromNat(i, m);
    FromToNat(i, m);
    FlipParity(cw, i);
  }

  /** Two flipped positions leave the parity even and the syndrome nonzero. */
  lemma TwiceFlipped(cw: Vec, m: nat, i: nat, j: nat)
    requires ValidCodeword(cw, m) && i < |cw| && j < |cw| && i != j
    ensures ToNat(Checks(Flip(Flip(cw, i), j), m)) != 0 && !Parity(Flip(Flip(cw, i), j))
  {
    var r := Flip(Flip(cw, i), j);
    FlipParity(cw, i);
    FlipParity(Flip(cw, i), j);
    forall p | 0 <= p < m ensures Checks(r, m)[p] == (HasBit(i, p) != HasBit(j, p)) {
      assert !Checks(cw, m)[p];
      FlipCheck(cw, i, p, |cw| - 1);
      FlipCheck(Flip(cw, i), j, p, |cw| - 1);
      NoBitsInZero(p);
    }
    ZeroValue(Checks(r, m));
    if ToNat(Checks(r, m)) == 0 {
      forall p | 0 <= p < m ensures HasBit(i, p) == HasBit(j, p) { assert !Checks(r, m)[p]; }
      SameBits(i, j, m);
    }
  }

  /** An undisturbed word raises no flag and keeps bits 1 .. n. */
  lemma NoError(cw: Vec, m: nat, p0Lsb: bool)
    requires ValidCodeword(cw, m)
    ensures Status(Layout(cw, p0Lsb), m, p0Lsb) == Flags(false, false, false)
    ensures Fixed(Layout(cw, p0Lsb), m, p0Lsb)[1..] == cw[1..]
  {
    LocateFlipped(cw, 0, p0Lsb);
    ZeroValue(Checks(cw, m));
  }

  /** The decoder's outputs from the located word. */
  lemma StatusOf(q: Vec, d: Vec, m: nat, p0Lsb: bool)
    requires |q| >= 1 && Located(q, p0Lsb) == d
    ensures Fixed(q, m, p0Lsb) == Corrected(d, Checks(d, m))
    ensures var f, s := Status(q, m, p0Lsb), ToNat(Checks(d, m));
      && f.sbErr == (Parity(d) && s != 0) && f.dbErr == (!Parity(d) && s != 0)
      && f.sbFix == (Parity(d) && s != 0 && !IsPowerOf2(s))
  {
  }

  lemma FlipBack(cw: Vec, s: Vec, i: nat)
    requires i < |cw| && ToNat(s) == i
    ensures Corrected(Flip(cw, i), s) == cw
  {
  }

  /** One flipped bit among 1 .. n is located, flagged as a single error and nothing else,
      and corrected; a flipped extended parity bit raises no flag. */
  lemma SingleErrorCorrected(cw: Vec, m: nat, j: nat, p0Lsb: bool)
    requires ValidCodeword(cw, m) && j < |cw|
    ensures var q, i := Flip(Layout(cw, p0Lsb), j), Position(j, |cw| - 1, p0Lsb);
      && ToNat(Checks(Located(q, p0Lsb), m)) == i
      && Status(q, m, p0Lsb) == Flags(i != 0, false, i != 0 && !PowerOfTwo(i))
      && Fixed(q, m, p0Lsb) == cw
  {
    var i := Position(j, |cw| - 1, p0Lsb);
    LocateFlipped(cw, j, p0Lsb);
    StatusOf(Flip(Layout(cw, p0Lsb), j), Flip(cw, i), m, p0Lsb);
    FlippedSyndrome(cw, m, i);
    FlipBack(cw, Checks(Flip(cw, i), m), i);
    if i != 0 { BitTrick(i); }
  }

  /** Any two flipped bits are flagged as a double error and nothing else. */
  lemma DoubleErrorDetected(cw: Vec, m: nat, j0: nat, j1: nat, p0Lsb: bool)
    requires ValidCodeword(cw, m) && j0 < |cw| && j1 < |cw| && j0 != j1
    ensures var f := Status(Flip(Flip(Layout(cw, p0Lsb), j0), j1), m, p0Lsb);
      f.dbErr && !f.sbErr && !f.sbFix
  {
    var n := |cw| - 1;
    var i0, i1 := Position(j0, n, p0Lsb), Position(j1, n, p0Lsb);
    LocateTwiceFlipped(cw, j0, j1, p0Lsb);
    StatusOf(Flip(Flip(Layout(cw, p0Lsb), j0), j1), Flip(Flip(cw, i0), i1), m, p0Lsb);
    TwiceFlipped(cw, m, i0, i1);
  }

  /** x & (x-1) is zero exactly for powers of two. */
  lemma {:induction false} BitTrick(x: nat)
    requires x >= 1
    ensures And(x, x - 1) == 0 <==> PowerOfTwo(x)
  {
    AndSelf(x / 2);
    HalvedPower(x);
    if x % 2 == 0 { BitTrick(x / 2); }
  }

  lemma {:induction false} AndSelf(x: nat)
    ensures And(x, x) == x
  {
    if x > 0 { AndSelf(x / 2); }
  }

  /** Powers of two are 1 and the doubled powers of two. */
  lemma HalvedPower(x: nat)
    requires x >= 1
    ensures PowerOfTwo(x) <==> x == 1 || (x % 2 == 0 && PowerOfTwo(x / 2))
  {
    if PowerOfTwo(x) && x > 1 {
      var l := F.Clog2(x);
      PowerOfTwoIsPow2(x / 2, l - 1);
    }
    if x % 2 == 0 && PowerOfTwo(x / 2) {
      PowerOfTwoIsPow2(x, F.Clog2(x / 2) + 1);
    }
  }

  // --------------------------------------------------- what becomes of the data bits

  /** The greatest position up to n that holds no check bit. */
  function LastData(n: nat): (i: nat)
    requires n >= 3
    ensures 3 <= i <= n && !PowerOfTwo(i)
  {
    if PowerOfTwo(n) then
      assert n != 3;
      LastData(n - 1)
    else n
  }

  /** extract_q: every data position is written to bit 0, the last one stays; the other
      bits are never assigned and keep what `unassigned` says. */
  function Extracted(cw: Vec, unassigned: Vec): (q: Vec)
    requires |cw| >= 4 && |unassigned| >= 1
    ensures |q| == |unassigned|
  {
    unassigned[0 := cw[LastData(|cw| - 1)]]
  }

  method ExtractQ(cw: Vec, unassigned: Vec) returns (q: Vec)
    requires |cw| >= 4 && |unassigned| >= 1
    ensures q == Extracted(cw, unassigned)
  {
    q := unassigned;
    var bitIdx := 0;
    for i := 1 to |cw|
      invariant |q| == |unassigned| && q[1..] == unassigned[1..]
      invariant i > 3 ==> q[0] == cw[LastData(i - 1)]
    {
      if !PowerOfTwo(i) { q := q[bitIdx := cw[i]]; }
    }
    bitIdx := bitIdx + 1;
  }

  lemma AtLeastThree(m: nat, k: nat)
    requires IsM(m, k) && k >= 1
    ensures m + k >= 3
  {
    assert Pow2(1) == 2;
  }

  lemma DataInCodeword(d: Vec, m: nat, i: nat)
    requires |d| >= 1 && IsM(m, |d|) && 3 <= i <= m + |d| && !PowerOfTwo(i)
    ensures Codeword(d, m)[i] == d[0]
  {
    var w := DataPlaced(d, m + |d|);
    ChecksStartClear(d, m + |d|, m);
    KeepsOthers(w, Checks(w, m), i);
  }

  /** Codewords tell apart nothing but bit 0 of the data. */
  lemma CodewordsAgree(d0: Vec, d1: Vec, m: nat)
    requires |d0| == |d1| >= 1 && IsM(m, |d0|)
    ensures Codeword(d0, m) == Codeword(d1, m) <==> d0[0] == d1[0]
  {
    AtLeastThree(m, |d0|);
    var i := LastData(m + |d0|);
    DataInCodeword(d0, m, i);
    DataInCodeword(d1, m, i);
    if d0[0] == d1[0] { assert DataPlaced(d0, m + |d0|) == DataPlaced(d1, m + |d0|); }
  }

  lemma NoErrorBit(cw: Vec, m: nat, p0Lsb: bool, i: nat)
    requires ValidCodeword(cw, m) && 1 <= i < |cw|
    ensures var f := Fixed(Layout(cw, p0Lsb), m, p0Lsb); |f| == |cw| && f[i] == cw[i]
  {
    NoError(cw, m, p0Lsb);
    var f := Fixed(Layout(cw, p0Lsb), m, p0Lsb);
    assert f[1..][i - 1] == cw[1..][i - 1];
  }

  /** The data after encoding, an undisturbed channel and decoding. */
  function Returned(d: Vec, m: nat, p0Lsb: bool, unassigned: Vec): (q: Vec)
    requires |d| == |unassigned| >= 1 && IsM(m, |d|)
  {
    AtLeastThree(m, |d|);
    Extracted(Fixed(Layout(Codeword(d, m), p0Lsb), m, p0Lsb), unassigned)
  }

  lemma ExtractedBit(f: Vec, u: Vec, b: bool)
    requires |f| >= 4 && |u| >= 1 && f[LastData(|f| - 1)] == b
    ensures Extracted(f, u) == u[0 := b]
  {
  }

  lemma LastDataInCodeword(d: Vec, m: nat)
    requires |d| >= 1 && IsM(m, |d|) && m + |d| >= 3
    ensures Codeword(d, m)[LastData(m + |d|)] == d[0]
  {
    DataInCodeword(d, m, LastData(m + |d|));
  }

  /** The last data position is as it was. */
  predicate LastKept(cw: Vec, m: nat, p0Lsb: bool)
    requires |cw| >= 4
  {
    var f := Fixed(Layout(cw, p0Lsb), m, p0Lsb);
    |f| == |cw| && f[LastData(|f| - 1)] == cw[LastData(|cw| - 1)]
  }

  /** A word without error keeps it. */
  lemma LastDataKept(cw: Vec, m: nat, p0Lsb: bool)
    requires ValidCodeword(cw, m) && |cw| >= 4
    ensures LastKept(cw, m, p0Lsb)
  {
    NoErrorBit(cw, m, p0Lsb, LastData(|cw| - 1));
  }

  lemma EncodedKept(d: Vec, m: nat, p0Lsb: bool)
    requires |d| >= 1 && IsM(m, |d|) && m + |d| >= 3
    ensures LastKept(Codeword(d, m), m, p0Lsb)
  {
    EncoderIsValid(d, m);
    LastDataKept(Codeword(d, m), m, p0Lsb);
  }

  lemma ReturnedData(d: Vec, m: nat, p0Lsb: bool, u: Vec)
    requires |d| == |u| >= 1 && IsM(m, |d|)
    ensures Returned(d, m, p0Lsb, u) == u[0 := d[0]]
  {
    AtLeastThree(m, |d|);
    EncodedKept(d, m, p0Lsb);
    LastDataInCodeword(d, m);
    ExtractedBit(Fixed(Layout(Codeword(d, m), p0Lsb), m, p0Lsb), u, d[0]);
  }

  lemma ReturnedIff(d: Vec, m: nat, p0Lsb: bool, u: Vec)
    requires |d| == |u| >= 1 && IsM(m, |d|)
    ensures Returned(d, m, p0Lsb, u) == d <==> d[1..] == u[1..]
  {
    ReturnedData(d, m, p0Lsb, u);
    assert u[0 := d[0]] == [d[0]] + u[1..];
    assert d == [d[0]] + d[1..];
  }

  lemma MoreBitsLost(u: Vec, m: nat, p0Lsb: bool) returns (d: Vec)
    requires |u| > 1 && IsM(m, |u|)
    ensures |d| == |u| && Returned(d, m, p0Lsb, u) != d
  {
    d := u[1 := !u[1]];
    assert d[1..][0] != u[1..][0];
    ReturnedIff(d, m, p0Lsb, u);
  }

  /** Whatever is in the bits the extractor leaves unassigned: data comes back, whatever it
      is, exactly when there is one information bit. */
  lemma DataReturnsIffOneBit(u: Vec, m: nat, p0Lsb: bool)
    requires |u| >= 1 && IsM(m, |u|)
    ensures (forall d: Vec :: |d| == |u| ==> Returned(d, m, p0Lsb, u) == d) <==> |u| == 1
  {
    if |u| == 1 {
      forall d: Vec | |d| == |u| ensures Returned(d, m, p0Lsb, u) == d { ReturnedIff(d, m, p0Lsb, u); }
    } else {
      var d := MoreBitsLost(u, m, p0Lsb);
    }
  }
}
