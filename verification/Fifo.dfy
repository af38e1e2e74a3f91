/** The circular buffer (cv32e40p_fifo) for every depth from one, with and without
    fall-through. */
module Fifo {
  import opened Bits
  import F = FindFirstOne

  /** ADDR_DEPTH: the pointers' width. */
  function Width(depth: nat): (a: nat)
    requires depth >= 1
    ensures depth <= Pow2(a) && 1 < Pow2(a)
  {
    if depth > 1 then F.Clog2(depth) else 1
  }

  datatype In<T> = In(flush: bool, flushButFirst: bool, push: bool, data: T, pop: bool)

  datatype Regs<T> = Regs(mem: seq<T>, rp: nat, wp: nat, cnt: nat)

  datatype Out<T> = Out(full: bool, empty: bool, cnt: nat, data: T)

  /** What every state satisfies, whatever was flushed. */
  predicate Fits<T>(r: Regs<T>, depth: nat) {
    depth >= 1 && |r.mem| == depth && r.rp < depth && r.wp < Pow2(Width(depth)) && r.cnt <= depth
  }

  /** A pointer plus one. The comparison with the truncated depth minus one is made in 32
      bits: it never holds for a power of two of at least two, where the pointer itself
      wraps. */
  function Inc(ptr: nat, depth: nat): (n: nat)
    requires depth >= 1 && ptr < Pow2(Width(depth))
    ensures n < Pow2(Width(depth))
  {
    var low := if depth == Pow2(Width(depth)) then 0 else depth;
    if low > 0 && ptr == low - 1 then 0 else PtrPlus1(ptr, depth)
  }

  /** ptr + 1 in the pointer's width. */
  function PtrPlus1(ptr: nat, depth: nat): (n: nat)
    requires depth >= 1 && ptr < Pow2(Width(depth))
    ensures n < Pow2(Width(depth))
  {
    if ptr + 1 == Pow2(Width(depth)) then 0 else ptr + 1
  }

  predicate Full<T>(r: Regs<T>, depth: nat) { r.cnt == depth }

  predicate Empty<T>(r: Regs<T>, i: In<T>, fallThrough: bool) { r.cnt == 0 && !(fallThrough && i.push) }

  function Outputs<T>(r: Regs<T>, i: In<T>, depth: nat, fallThrough: bool): Out<T>
    requires Fits(r, depth)
  {
    Out(Full(r, depth), Empty(r, i, fallThrough), r.cnt,
        if fallThrough && r.cnt == 0 && i.push then i.data else r.mem[r.rp])
  }

  function Next<T>(r: Regs<T>, i: In<T>, depth: nat, fallThrough: bool): (n: Regs<T>)
    requires Fits(r, depth)
    ensures Fits(n, depth)
  {
    var pushing := i.push && !Full(r, depth);
    var popping := i.pop && !Empty(r, i, fallThrough);
    var mem := if pushing && r.wp < depth then r.mem[r.wp := i.data] else r.mem;
    if i.flush then Regs(mem, 0, 0, 0)
    else if i.flushButFirst then
      if r.cnt > 0 then Regs(mem, r.rp, PtrPlus1(r.rp, depth), 1) else Regs(mem, 0, 0, 0)
    else if fallThrough && r.cnt == 0 && i.push && i.pop then r.(mem := mem)
    else
      IncBelow(r.rp, depth);
      Regs(mem, if popping then Inc(r.rp, depth) else r.rp,
           if pushing then Inc(r.wp, depth) else r.wp,
           if pushing == popping then r.cnt else if pushing then r.cnt + 1 else r.cnt - 1)
  }

  lemma IncBelow(ptr: nat, depth: nat)
    requires depth >= 1 && ptr < depth
    ensures Inc(ptr, depth) == if ptr + 1 == depth then 0 else ptr + 1
  {
  }

  /** The module: buffer, pointers and count. */
  class CircularBuffer<T> {
    const depth: nat
    const fallThrough: bool
    const mem: array<T>
    var readPointer: nat
    var writePointer: nat
    var statusCnt: nat

    ghost predicate Valid()
      reads this, mem
    {
      Fits(Registers(), depth)
    }

    function Registers(): Regs<T>
      reads this, mem
    {
      Regs(mem[..], readPointer, writePointer, statusCnt)
    }

    /** Reset; `zero` fills the buffer. */
    constructor (depth: nat, fallThrough: bool, zero: T)
      requires depth >= 1
      ensures this.depth == depth && this.fallThrough == fallThrough && fresh(mem)
      ensures Valid() && readPointer == writePointer == statusCnt == 0
    {
      this.depth, this.fallThrough := depth, fallThrough;
      mem := new T[depth](_ => zero);
      readPointer, writePointer, statusCnt := 0, 0, 0;
    }

    /** read_write_comb: the pointers and count if nothing is flushed. */
    method Compute(i: In<T>) returns (rp: nat, wp: nat, cnt: int)
      requires Valid()
      ensures !i.flush && !i.flushButFirst ==>
                var n := Next(Registers(), i, depth, fallThrough);
                rp == n.rp && wp == n.wp && cnt == n.cnt
    {
      rp, wp, cnt := readPointer, writePointer, statusCnt;
      var full, empty := statusCnt == depth, statusCnt == 0 && !(fallThrough && i.push);
      if i.push && !full {
        wp, cnt := Inc(writePointer, depth), statusCnt + 1;
      }
      if i.pop && !empty {
        rp, cnt := Inc(readPointer, depth), statusCnt - 1;
      }
      if i.push && i.pop && !full && !empty { cnt := statusCnt; }
      if fallThrough && statusCnt == 0 && i.push && i.pop {
        rp, wp, cnt := readPointer, writePointer, statusCnt;
      }
    }

    /** One rising clock edge, with the outputs of the cycle it ends. */
    method Clock(i: In<T>) returns (o: Out<T>)
      requires Valid()
      modifies this, mem
      ensures Valid()
      ensures Registers() == Next(old(Registers()), i, depth, fallThrough)
      ensures o == Outputs(old(Registers()), i, depth, fallThrough)
    {
      var r := Registers();
      o := Outputs(r, i, depth, fallThrough);
      var rp, wp, cnt := Compute(i);
      if i.push && !Full(r, depth) && writePointer < depth {
        mem[writePointer] := i.data;
      }
      if i.flush {
        readPointer, writePointer, statusCnt := 0, 0, 0;
      } else if i.flushButFirst {
        readPointer := if r.cnt > 0 then r.rp else 0;
        writePointer := if r.cnt > 0 then PtrPlus1(r.rp, depth) else 0;
        statusCnt := if r.cnt > 0 then 1 else 0;
      } else {
        readPointer, writePointer, statusCnt := rp, wp, cnt;
      }
    }
  }

  // --------------------------------------------------------------- the abstract queue

  function Wrap(x: nat, depth: nat): nat { if x >= depth then x - depth else x }

  /** The queue a state stands for, oldest first. */
  function Contents<T>(r: Regs<T>, depth: nat): (q: seq<T>)
    requires Fits(r, depth)
    ensures |q| == r.cnt
  {
    seq(r.cnt, k requires 0 <= k < r.cnt => r.mem[Wrap(r.rp + k, depth)])
  }

  /** Writing goes on where the contents end. */
  predicate Sound<T>(r: Regs<T>, depth: nat) {
    Fits(r, depth) && r.wp == Wrap(r.rp + r.cnt, depth)
  }

  /** One cycle of the abstract queue: what is pushed joins before what is popped leaves. */
  function NextQueue<T>(q: seq<T>, i: In<T>, depth: nat, fallThrough: bool): (n: seq<T>) {
    if i.flush then []
    else if i.flushButFirst then (if q == [] then [] else [q[0]])
    else
      var joined := if i.push && |q| < depth then q + [i.data] else q;
      var popping := i.pop && (q != [] || (fallThrough && i.push));
      if popping && joined != [] then joined[1..] else joined
  }

  /** The write pointer set by flush-but-first is right. */
  predicate FlushFits<T>(r: Regs<T>, depth: nat)
    requires depth >= 1
  {
    r.cnt == 0 || r.rp + 1 < depth || depth == Pow2(Width(depth))
  }

  /** A write lands behind the contents. */
  lemma WriteBehind<T>(r: Regs<T>, x: T, depth: nat, k: nat)
    requires Sound(r, depth) && k < r.cnt < depth
    ensures r.wp < depth
    ensures r.mem[r.wp := x][Wrap(r.rp + k, depth)] == r.mem[Wrap(r.rp + k, depth)]
  {
    assert Wrap(r.rp + k, depth) != r.wp;
  }

  lemma FlushRefines<T>(r: Regs<T>, i: In<T>, depth: nat, fallThrough: bool)
    requires Sound(r, depth) && (i.flush || i.flushButFirst)
    requires !i.flush ==> FlushFits(r, depth)
    ensures var n := Next(r, i, depth, fallThrough);
      Sound(n, depth) && Contents(n, depth) == NextQueue(Contents(r, depth), i, depth, fallThrough)
  {
    var n := Next(r, i, depth, fallThrough);
    if 0 < r.cnt < depth { WriteBehind(r, i.data, depth, 0); }
    assert Contents(r, depth) == [] <==> r.cnt == 0;
    if !i.flush && r.cnt > 0 { assert n.mem[n.rp] == r.mem[Wrap(r.rp + 0, depth)]; }
  }

  /** Pushing appends, popping drops the head. */
  lemma PushAppends<T>(r: Regs<T>, x: T, depth: nat)
    requires Sound(r, depth) && r.cnt < depth
    ensures var n := Regs(r.mem[r.wp := x], r.rp, Inc(r.wp, depth), r.cnt + 1);
      Sound(n, depth) && Contents(n, depth) == Contents(r, depth) + [x]
  {
    IncBelow(r.wp, depth);
    var n := Regs(r.mem[r.wp := x], r.rp, Inc(r.wp, depth), r.cnt + 1);
    forall k | 0 <= k < n.cnt ensures Contents(n, depth)[k] == (Contents(r, depth) + [x])[k] {
      if k < r.cnt { WriteBehind(r, x, depth, k); }
    }
  }

  lemma PopDrops<T>(r: Regs<T>, depth: nat)
    requires Sound(r, depth) && r.cnt > 0
    ensures Inc(r.rp, depth) < depth
    ensures var n := r.(rp := Inc(r.rp, depth), cnt := r.cnt - 1);
      Sound(n, depth) && Contents(n, depth) == Contents(r, depth)[1..]
  {
    IncBelow(r.rp, depth);
    var n := r.(rp := Inc(r.rp, depth), cnt := r.cnt - 1);
    forall k | 0 <= k < n.cnt ensures Contents(n, depth)[k] == Contents(r, depth)[1..][k] {
      assert Wrap(n.rp + k, depth) == Wrap(r.rp + (k + 1), depth);
    }
  }

  lemma PushPopRefines<T>(r: Regs<T>, i: In<T>, depth: nat, fallThrough: bool)
    requires Sound(r, depth) && !i.flush && !i.flushButFirst
    ensures var n := Next(r, i, depth, fallThrough);
      Sound(n, depth) && Contents(n, depth) == NextQueue(Contents(r, depth), i, depth, fallThrough)
  {
    var q := Contents(r, depth);
    assert q == [] <==> r.cnt == 0;
    if i.push && r.cnt < depth {
      PushAppends(r, i.data, depth);
      if i.pop && r.cnt > 0 {
        PopDrops(Regs(r.mem[r.wp := i.data], r.rp, Inc(r.wp, depth), r.cnt + 1), depth);
      }
    } else if i.pop && r.cnt > 0 {
      PopDrops(r, depth);
    }
  }

  /** Outputs and next contents are those of the queue. */
  lemma StepRefines<T>(r: Regs<T>, i: In<T>, depth: nat, fallThrough: bool)
    requires Sound(r, depth)
    requires i.flushButFirst && !i.flush ==> FlushFits(r, depth)
    ensures var n := Next(r, i, depth, fallThrough);
      Sound(n, depth) && Contents(n, depth) == NextQueue(Contents(r, depth), i, depth, fallThrough)
  {
    if i.flush || i.flushButFirst { FlushRefines(r, i, depth, fallThrough); }
    else { PushPopRefines(r, i, depth, fallThrough); }
  }

  lemma OutputsRefine<T>(r: Regs<T>, i: In<T>, depth: nat, fallThrough: bool)
    requires Sound(r, depth)
    ensures var o, q := Outputs(r, i, depth, fallThrough), Contents(r, depth);
      && o.cnt == |q| && (o.full <==> |q| == depth)
      && (o.empty <==> q == [] && !(fallThrough && i.push))
      && (!o.empty ==> o.data == if q == [] then i.data else q[0])
  {
    assert Contents(r, depth) == [] <==> r.cnt == 0;
    assert Wrap(r.rp + 0, depth) == r.rp;
  }

  /** Flush-but-first leaves a working buffer exactly in these cases. */
  lemma FlushButFirstIff<T>(r: Regs<T>, i: In<T>, depth: nat, fallThrough: bool)
    requires Sound(r, depth) && i.flushButFirst && !i.flush
    ensures Sound(Next(r, i, depth, fallThrough), depth) <==> FlushFits(r, depth)
  {
  }

  /** It fits in every state exactly when the depth is a power of two of at least two. */
  lemma FlushNeedsPowerOfTwo(depth: nat)
    requires depth >= 1
    ensures (forall r: Regs<bool> :: Sound(r, depth) ==> FlushFits(r, depth)) <==> depth == Pow2(Width(depth))
  {
    if depth != Pow2(Width(depth)) {
      var r := Regs(Zeros(depth), depth - 1, 0, 1);
      assert Sound(r, depth) && !FlushFits(r, depth);
    }
  }

  // -------------------------------------------------------------------- whole runs

  function Run<T>(r: Regs<T>, ins: nat -> In<T>, depth: nat, fallThrough: bool, n: nat): (s: Regs<T>)
    requires Fits(r, depth)
    ensures Fits(s, depth)
  {
    if n == 0 then r else Next(Run(r, ins, depth, fallThrough, n - 1), ins(n - 1), depth, fallThrough)
  }

  function RunQueue<T>(q: seq<T>, ins: nat -> In<T>, depth: nat, fallThrough: bool, n: nat): seq<T> {
    if n == 0 then q else NextQueue(RunQueue(q, ins, depth, fallThrough, n - 1), ins(n - 1), depth, fallThrough)
  }

  /** Every flush-but-first of the first n cycles came where it fits. */
  predicate FlushesFit<T>(r: Regs<T>, ins: nat -> In<T>, depth: nat, fallThrough: bool, n: nat)
    requires Fits(r, depth)
  {
    n == 0 || (FlushesFit(r, ins, depth, fallThrough, n - 1)
               && (ins(n - 1).flushButFirst && !ins(n - 1).flush ==>
                     FlushFits(Run(r, ins, depth, fallThrough, n - 1), depth)))
  }

  /** Along every run the buffer is the queue. */
  lemma {:induction false} RunRefines<T>(r: Regs<T>, ins: nat -> In<T>, depth: nat, fallThrough: bool, n: nat)
    requires Sound(r, depth) && FlushesFit(r, ins, depth, fallThrough, n)
    ensures var s := Run(r, ins, depth, fallThrough, n);
      && Sound(s, depth)
      && Contents(s, depth) == RunQueue(Contents(r, depth), ins, depth, fallThrough, n)
  {
    if n > 0 {
      RunRefines(r, ins, depth, fallThrough, n - 1);
      StepRefines(Run(r, ins, depth, fallThrough, n - 1), ins(n - 1), depth, fallThrough);
    }
  }

  /** For depths that are powers of two of at least two, under every input. */
  lemma {:induction false} PowerOfTwoDepth<T>(r: Regs<T>, ins: nat -> In<T>, depth: nat, fallThrough: bool, n: nat)
    requires Sound(r, depth) && depth == Pow2(Width(depth))
    ensures var s := Run(r, ins, depth, fallThrough, n);
      && Sound(s, depth)
      && Contents(s, depth) == RunQueue(Contents(r, depth), ins, depth, fallThrough, n)
  {
    EveryFlushFits(r, ins, depth, fallThrough, n);
    RunRefines(r, ins, depth, fallThrough, n);
  }

  lemma {:induction false} EveryFlushFits<T>(r: Regs<T>, ins: nat -> In<T>, depth: nat, fallThrough: bool, n: nat)
    requires Fits(r, depth) && depth == Pow2(Width(depth))
    ensures FlushesFit(r, ins, depth, fallThrough, n)
  {
    if n > 0 { EveryFlushFits(r, ins, depth, fallThrough, n - 1); }
  }

  // ----------------------------------------------------- every depth, from reset

  /** Reset, for a buffer of bits. */
  function Start(depth: nat): Regs<bool> { Regs(Zeros(depth), 0, 0, 0) }

  /** Fill the buffer, read until one word is left in the last slot, flush-but-first, read
      that word, and push. */
  function Losing(depth: nat, t: nat): In<bool>
    requires depth >= 1
  {
    In(false, t == 2 * depth - 1, t < depth || t == 2 * depth + 1, t < depth,
       depth <= t < 2 * depth - 1 || t == 2 * depth)
  }

  /** Pushing fills the buffer from slot 0, reading moves the read pointer up. */
  lemma {:induction false} LosingRun(ins: nat -> In<bool>, depth: nat, fallThrough: bool, n: nat)
    requires 1 <= depth && n < 2 * depth && forall t: nat :: ins(t) == Losing(depth, t)
    ensures var r := Run(Start(depth), ins, depth, fallThrough, n);
      && r.rp == (if n <= depth then 0 else n - depth) && r.cnt == (if n <= depth then n else 2 * depth - n)
      && r.wp == (if n < depth then n else 0) && (n > 0 ==> r.mem[0])
  {
    if n > 0 {
      LosingRun(ins, depth, fallThrough, n - 1);
      IncBelow(Run(Start(depth), ins, depth, fallThrough, n - 1).rp, depth);
      IncBelow(Run(Start(depth), ins, depth, fallThrough, n - 1).wp, depth);
    }
  }

  /** For any other depth the write pointer then lies outside the buffer: the word pushed
      is lost, and the one read next is the first one ever written. */
  lemma PushIsLost(r: Regs<bool>, flush: In<bool>, pop: In<bool>, push: In<bool>, depth: nat, fallThrough: bool)
    requires Fits(r, depth) && depth != Pow2(Width(depth)) && r.rp == depth - 1 && r.cnt == 1 && r.mem[0]
    requires flush == Losing(depth, 2 * depth - 1) && pop == Losing(depth, 2 * depth)
    requires push == Losing(depth, 2 * depth + 1)
    ensures var n := Next(Next(Next(r, flush, depth, fallThrough), pop, depth, fallThrough), push, depth, fallThrough);
      n.cnt == 1 && n.rp == 0 && n.mem[0]
  {
    IncBelow(depth - 1, depth);
  }

  lemma QueueTakesPush(q: seq<bool>, flush: In<bool>, pop: In<bool>, push: In<bool>, depth: nat, fallThrough: bool)
    requires depth >= 1
    requires flush == Losing(depth, 2 * depth - 1) && pop == Losing(depth, 2 * depth)
    requires push == Losing(depth, 2 * depth + 1)
    ensures NextQueue(NextQueue(NextQueue(q, flush, depth, fallThrough), pop, depth, fallThrough),
                      push, depth, fallThrough) == [false]
  {
    var one := NextQueue(q, flush, depth, fallThrough);
    assert |one| <= 1 && NextQueue(one, pop, depth, fallThrough) == [];
  }

  lemma LosingShows(depth: nat, fallThrough: bool)
    requires depth >= 1 && depth != Pow2(Width(depth))
    ensures var ins := (t: nat) => Losing(depth, t);
      && Contents(Run(Start(depth), ins, depth, fallThrough, 2 * depth + 2), depth) == [true]
      && RunQueue([], ins, depth, fallThrough, 2 * depth + 2) == [false]
  {
    var ins, k := (t: nat) => Losing(depth, t), 2 * depth - 1;
    var r := Run(Start(depth), ins, depth, fallThrough, k);
    LosingRun(ins, depth, fallThrough, k);
    PushIsLost(r, ins(k), ins(k + 1), ins(k + 2), depth, fallThrough);
    QueueTakesPush(RunQueue([], ins, depth, fallThrough, k), ins(k), ins(k + 1), ins(k + 2), depth, fallThrough);
    assert Run(Start(depth), ins, depth, fallThrough, k + 1) == Next(r, ins(k), depth, fallThrough);
    assert RunQueue([], ins, depth, fallThrough, k + 1)
        == NextQueue(RunQueue([], ins, depth, fallThrough, k), ins(k), depth, fallThrough);
  }

  /** From reset the buffer is the queue under every input exactly for the depths that are
      powers of two of at least two. */
  lemma EveryRunIff(depth: nat, fallThrough: bool)
    requires depth >= 1
    ensures (forall ins: nat -> In<bool>, n: nat ::
               Contents(Run(Start(depth), ins, depth, fallThrough, n), depth)
               == RunQueue([], ins, depth, fallThrough, n))
       <==> depth == Pow2(Width(depth))
  {
    if depth == Pow2(Width(depth)) {
      forall ins: nat -> In<bool>, n: nat
        ensures Contents(Run(Start(depth), ins, depth, fallThrough, n), depth)
             == RunQueue([], ins, depth, fallThrough, n)
      {
        PowerOfTwoDepth(Start(depth), ins, depth, fallThrough, n);
        assert Contents(Start(depth), depth) == [];
      }
    } else {
      LosingShows(depth, fallThrough);
      var ins := (t: nat) => Losing(depth, t);
      assert Contents(Run(Start(depth), ins, depth, fallThrough, 2 * depth + 2), depth)
          != RunQueue([], ins, depth, fallThrough, 2 * depth + 2);
    }
  }
}
