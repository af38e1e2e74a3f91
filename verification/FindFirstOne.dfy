/** The find-first-one tree: pairs of input bits at the leaves, and at every inner
    node the left child's index whenever the left child has seen a one. */
module FindFirstOne {
  import opened Bits

  datatype Node = Node(sel: bool, index: nat)

  /** $clog2 */
  function Clog2(n: nat): (l: nat)
    requires n >= 1
    ensures n <= Pow2(l) && (l > 0 ==> Pow2(l - 1) < n)
    ensures n >= 2 ==> l > 0
  {
    if n == 1 then 0 else
    1 + Clog2((n + 1) / 2)
  }

  /** A node of the last generated level, over bits 2k and 2k+1 where they exist. */
  function Leaf(v: Vec, k: nat): Node
    requires |v| >= 2
  {
    if 2 * k < |v| - 1 then
      Node(v[2 * k] || v[2 * k + 1], if v[2 * k] then 2 * k else 2 * k + 1)
    else if 2 * k == |v| - 1 then
      Node(v[2 * k], 2 * k)
    else
      Node(false, 0)
  }

  function Join(left: Node, right: Node): Node {
    Node(left.sel || right.sel, if left.sel then left.index else right.index)
  }

  function TreeNode(v: Vec, level: nat, l: nat): Node
    requires |v| >= 2 && level < Clog2(|v|)
    decreases Clog2(|v|) - level
  {
    if level == Clog2(|v|) - 1 then Leaf(v, l)
    else
      Join(TreeNode(v, level + 1, 2 * l), TreeNode(v, level + 1, 2 * l + 1))
  }

  function FirstOne(v: Vec): nat
    requires |v| >= 2
  {
    TreeNode(v, 0, 0).index
  }

  predicate NoOnes(v: Vec)
    requires |v| >= 2
  {
    !TreeNode(v, 0, 0).sel
  }

  /** No bit of v is set in [lo, hi). */
  predicate ClearIn(v: Vec, lo: nat, hi: nat) {
    forall i :: lo <= i < hi && i < |v| ==> !v[i]
  }

  /** What a node says about the input positions [lo, hi) below it. */
  predicate Summarises(v: Vec, n: Node, lo: nat, hi: nat) {
    && (!n.sel ==> ClearIn(v, lo, hi))
    && (n.sel ==> lo <= n.index < hi && n.index < |v| && v[n.index] && ClearIn(v, lo, n.index))
  }

  lemma LeafSummarises(v: Vec, k: nat)
    requires |v| >= 2
    ensures Summarises(v, Leaf(v, k), 2 * k, 2 * k + 2)
  {
  }

  lemma JoinSummarises(v: Vec, left: Node, right: Node, lo: nat, mid: nat, hi: nat)
    requires lo <= mid <= hi
    requires Summarises(v, left, lo, mid) && Summarises(v, right, mid, hi)
    ensures Summarises(v, Join(left, right), lo, hi)
  {
  }

  /** The children of node l start where it starts, and half its span later. */
  lemma {:induction false} HalveRange(l: nat, d: nat)
    ensures Shl(2 * l, d) == Shl(l, d + 1)
    ensures Shl(2 * l + 1, d) == Shl(l, d + 1) + Pow2(d)
  {
    if d > 0 { HalveRange(l, d - 1); }
  }

  /** Node l at a level summarises its share of the positions: 2^d of them from l * 2^d. */
  lemma {:induction false} TreeNodeSummarises(v: Vec, level: nat, l: nat, d: nat)
    requires |v| >= 2 && level < Clog2(|v|) && d == Clog2(|v|) - level
    ensures Summarises(v, TreeNode(v, level, l), Shl(l, d), Shl(l, d) + Pow2(d))
    decreases d
  {
    if d == 1 {
      LeafSummarises(v, l);
    } else {
      HalveRange(l, d - 1);
      TreeNodeSummarises(v, level + 1, 2 * l, d - 1);
      TreeNodeSummarises(v, level + 1, 2 * l + 1, d - 1);
      JoinSummarises(v, TreeNode(v, level + 1, 2 * l), TreeNode(v, level + 1, 2 * l + 1),
                     Shl(l, d), Shl(l, d) + Pow2(d - 1), Shl(l, d) + Pow2(d));
    }
  }

  lemma {:induction false} ShlOfZero(d: nat)
    ensures Shl(0, d) == 0
  {
    if d > 0 { ShlOfZero(d - 1); }
  }

  /** For every input of two or more bits, power of two or not: no_ones exactly when
      nothing is set, otherwise the index is that of the least set bit. */
  lemma FirstOneCorrect(v: Vec)
    requires |v| >= 2
    ensures NoOnes(v) <==> ToNat(v) == 0
    ensures !NoOnes(v) ==>
      FirstOne(v) < |v| && v[FirstOne(v)] && forall i :: 0 <= i < FirstOne(v) ==> !v[i]
  {
    var d := Clog2(|v|);
    TreeNodeSummarises(v, 0, 0, d);
    ShlOfZero(d);
    ZeroValue(v);
  }

  /** The first set bit of the reversed word is the last of the word. */
  lemma ReversedTop(v: Vec, r: Vec, f: nat)
    requires r == Reverse(v) && f < |v| && r[f] && forall i :: 0 <= i < f ==> !r[i]
    ensures Pow2(|v| - 1 - f) <= ToNat(v) < Pow2(|v| - f)
  {
    var k := |v| - 1 - f;
    forall i | k < i < |v| ensures !v[i] { assert v[i] == r[|v| - 1 - i]; }
    assert v[k] == r[f];
    TopBitBounds(v, k);
  }

  /** What a correct search of the reversed word says about the word. */
  lemma ReversedSearch(v: Vec, r: Vec, none: bool, f: nat)
    requires r == Reverse(v) && (none <==> ToNat(r) == 0)
    requires !none ==> f < |r| && r[f] && forall i :: 0 <= i < f ==> !r[i]
    ensures none <==> ToNat(v) == 0
    ensures !none ==> f < |v| && Pow2(|v| - 1 - f) <= ToNat(v) < Pow2(|v| - f)
  {
    ZeroValue(r);
    ZeroValue(v);
    forall i | 0 <= i < |v| ensures v[i] == r[|v| - 1 - i] {
    }
    if !none { ReversedTop(v, r, f); }
  }

  /** On the reversed word the index is the number of leading zeros. */
  lemma FirstOneOfReverse(v: Vec)
    requires |v| >= 2
    ensures NoOnes(Reverse(v)) <==> ToNat(v) == 0
    ensures !NoOnes(Reverse(v)) ==>
      && FirstOne(Reverse(v)) < |v|
      && Pow2(|v| - 1 - FirstOne(Reverse(v))) <= ToNat(v) < Pow2(|v| - FirstOne(Reverse(v)))
  {
    var r := Reverse(v);
    FirstOneCorrect(r);
    ReversedSearch(v, r, NoOnes(r), FirstOne(r));
  }

  lemma ClearTopBit(v: Vec)
    requires |v| >= 2 && !v[|v| - 1]
    ensures !NoOnes(Reverse(v)) ==> FirstOne(Reverse(v)) > 0
  {
    FirstOneCorrect(Reverse(v));
  }
}
