/** Runs of a step function under an environment, and invariants along them. */
module Runs {
  function Run<S, E>(s: S, step: (S, E) -> S, env: nat -> E, n: nat): S {
    if n == 0 then s else step(Run(s, step, env, n - 1), env(n - 1))
  }

  /** The environment kept its promises for n cycles. */
  predicate Kept<S, E>(s: S, step: (S, E) -> S, ok: (S, E) -> bool, env: nat -> E, n: nat) {
    n == 0 || (Kept(s, step, ok, env, n - 1) && ok(Run(s, step, env, n - 1), env(n - 1)))
  }

  /** What every promised step keeps holds along the run. */
  lemma {:induction false} Invariant<S(!new), E(!new)>(inv: S -> bool, ok: (S, E) -> bool,
                                                       s: S, step: (S, E) -> S, env: nat -> E, n: nat)
    requires inv(s) && Kept(s, step, ok, env, n)
    requires forall x, e {:trigger step(x, e)} :: inv(x) && ok(x, e) ==> inv(step(x, e))
    ensures inv(Run(s, step, env, n))
  {
    if n > 0 { Invariant(inv, ok, s, step, env, n - 1); }
  }

  /** The same without promises. */
  lemma {:induction false} Always<S(!new), E(!new)>(inv: S -> bool, s: S, step: (S, E) -> S, env: nat -> E, n: nat)
    requires inv(s)
    requires forall x, e {:trigger step(x, e)} :: inv(x) ==> inv(step(x, e))
    ensures inv(Run(s, step, env, n))
  {
    if n > 0 { Always(inv, s, step, env, n - 1); }
  }

  /** A property that moves on with the run, up to some cycle. */
  lemma {:induction false} Indexed<S(!new), E(!new)>(inv: (nat, S) -> bool, s: S, step: (S, E) -> S, env: nat -> E,
                                                     limit: nat, n: nat)
    requires inv(0, s) && n <= limit
    requires forall i: nat, x {:trigger step(x, env(i))} :: i < limit && inv(i, x) ==> inv(i + 1, step(x, env(i)))
    ensures inv(n, Run(s, step, env, n))
  {
    if n > 0 { Indexed(inv, s, step, env, limit, n - 1); }
  }

  /** Every promised cycle up to some one moves the property on. */
  ghost predicate MovesOn<S(!new), E(!new)>(inv: (nat, S) -> bool, ok: (S, E) -> bool, step: (S, E) -> S, env: nat -> E,
                                            limit: nat)
  {
    forall i: nat, x {:trigger step(x, env(i))} ::
      i < limit && inv(i, x) && ok(x, env(i)) ==> inv(i + 1, step(x, env(i)))
  }

  lemma {:induction false} IndexedWhile<S(!new), E(!new)>(inv: (nat, S) -> bool, ok: (S, E) -> bool, s: S,
                                                          step: (S, E) -> S, env: nat -> E, limit: nat, n: nat)
    requires inv(0, s) && n <= limit && Kept(s, step, ok, env, n) && MovesOn(inv, ok, step, env, limit)
    ensures inv(n, Run(s, step, env, n))
  {
    if n > 0 { IndexedWhile(inv, ok, s, step, env, limit, n - 1); }
  }

  /** Under one environment for ever, a run is a step and then a run. */
  lemma {:induction false} FirstStep<S, E>(s: S, step: (S, E) -> S, env: nat -> E, n: nat)
    requires forall t: nat :: env(t) == env(0)
    ensures Run(s, step, env, n + 1) == Run(step(s, env(0)), step, env, n)
  {
    if n > 0 {
      FirstStep(s, step, env, n - 1);
    } else {
      assert Run(s, step, env, 0) == s;
    }
  }

  /** What is seen of the state in each of the first n cycles. */
  function Seen<S, E, O>(s: S, step: (S, E) -> S, env: nat -> E, see: S -> O, n: nat): (seen: seq<O>)
    ensures |seen| == n
  {
    if n == 0 then [] else Seen(s, step, env, see, n - 1) + [see(Run(s, step, env, n - 1))]
  }

  /** A run of j + n cycles is one of j and then one of n. */
  lemma {:induction false} Split<S, E>(s: S, step: (S, E) -> S, env: nat -> E, later: nat -> E, j: nat, n: nat)
    requires forall t: nat :: later(t) == env(j + t)
    ensures Run(s, step, env, j + n) == Run(Run(s, step, env, j), step, later, n)
  {
    if n > 0 { Split(s, step, env, later, j, n - 1); }
  }

  lemma {:induction false} SeenSplit<S, E, O>(s: S, step: (S, E) -> S, env: nat -> E, later: nat -> E, see: S -> O,
                                              j: nat, n: nat)
    requires forall t: nat :: later(t) == env(j + t)
    ensures Seen(s, step, env, see, j + n)
         == Seen(s, step, env, see, j) + Seen(Run(s, step, env, j), step, later, see, n)
  {
    if n > 0 {
      SeenSplit(s, step, env, later, see, j, n - 1);
      Split(s, step, env, later, j, n - 1);
    }
  }

  lemma {:induction false} KeptSplit<S, E>(s: S, step: (S, E) -> S, ok: (S, E) -> bool, env: nat -> E, later: nat -> E,
                                           j: nat, n: nat)
    requires forall t: nat :: later(t) == env(j + t)
    requires Kept(s, step, ok, env, j) && Kept(Run(s, step, env, j), step, ok, later, n)
    ensures Kept(s, step, ok, env, j + n)
  {
    if n > 0 {
      KeptSplit(s, step, ok, env, later, j, n - 1);
      Split(s, step, env, later, j, n - 1);
    }
  }

  lemma {:induction false} KeptAt<S, E>(s: S, step: (S, E) -> S, ok: (S, E) -> bool, env: nat -> E, n: nat, k: nat)
    requires Kept(s, step, ok, env, n) && k < n
    ensures ok(Run(s, step, env, k), env(k))
    decreases n
  {
    if k < n - 1 { KeptAt(s, step, ok, env, n - 1, k); }
  }

  /** From s, keeping the promise, exactly this is seen and t is reached. */
  predicate Leads<S(==), E, O(==)>(s: S, step: (S, E) -> S, ok: (S, E) -> bool, env: nat -> E, see: S -> O,
                                   seen: seq<O>, t: S)
  {
    Kept(s, step, ok, env, |seen|) && Seen(s, step, env, see, |seen|) == seen && Run(s, step, env, |seen|) == t
  }

  lemma Join<S, E, O>(s: S, step: (S, E) -> S, ok: (S, E) -> bool, env: nat -> E, later: nat -> E, see: S -> O,
                      first: seq<O>, t: S, second: seq<O>, u: S)
    requires Leads(s, step, ok, env, see, first, t) && Leads(t, step, ok, later, see, second, u)
    requires forall n: nat :: later(n) == env(|first| + n)
    ensures Leads(s, step, ok, env, see, first + second, u)
  {
    var j, n := |first|, |second|;
    assert |first + second| == j + n;
    Split(s, step, env, later, j, n);
    SeenSplit(s, step, env, later, see, j, n);
    KeptSplit(s, step, ok, env, later, j, n);
  }

  lemma {:induction false} KeptPrefix<S, E>(s: S, step: (S, E) -> S, ok: (S, E) -> bool, env: nat -> E, n: nat, k: nat)
    requires Kept(s, step, ok, env, n) && k <= n
    ensures Kept(s, step, ok, env, k)
    decreases n
  {
    if k < n { KeptPrefix(s, step, ok, env, n - 1, k); }
  }

  /** Stronger promises. */
  lemma {:induction false} KeptWeaker<S(!new), E(!new)>(s: S, step: (S, E) -> S, ok: (S, E) -> bool,
                                                        weaker: (S, E) -> bool, env: nat -> E, n: nat)
    requires Kept(s, step, ok, env, n)
    requires forall x, e {:trigger weaker(x, e)} :: ok(x, e) ==> weaker(x, e)
    ensures Kept(s, step, weaker, env, n)
  {
    if n > 0 { KeptWeaker(s, step, ok, weaker, env, n - 1); }
  }

  /** A property that moves on with the run and keeps a promise, up to some cycle. */
  lemma {:induction false} KeptBy<S(!new), E(!new)>(inv: (nat, S) -> bool, s: S, step: (S, E) -> S, ok: (S, E) -> bool,
                                                    env: nat -> E, limit: nat, n: nat)
    requires inv(0, s) && n <= limit
    requires forall i: nat, x {:trigger ok(x, env(i))} :: i < limit && inv(i, x) ==> ok(x, env(i))
    requires forall i: nat, x {:trigger step(x, env(i))} :: i < limit && inv(i, x) ==> inv(i + 1, step(x, env(i)))
    ensures Kept(s, step, ok, env, n) && inv(n, Run(s, step, env, n))
  {
    if n > 0 { KeptBy(inv, s, step, ok, env, limit, n - 1); }
  }

  /** One promise keeps another by an invariant. */
  lemma {:induction false} KeptAlong<S(!new), E(!new)>(inv: S -> bool, s: S, step: (S, E) -> S, given: (S, E) -> bool,
                                                       ok: (S, E) -> bool, env: nat -> E, n: nat)
    requires inv(s) && Kept(s, step, given, env, n)
    requires forall x, e {:trigger ok(x, e)} :: inv(x) && given(x, e) ==> ok(x, e)
    requires forall x, e {:trigger step(x, e)} :: inv(x) && given(x, e) ==> inv(step(x, e))
    ensures Kept(s, step, ok, env, n) && inv(Run(s, step, env, n))
  {
    if n > 0 { KeptAlong(inv, s, step, given, ok, env, n - 1); }
  }

  function Sum(len: nat -> nat, k: nat): nat { if k == 0 then 0 else Sum(len, k - 1) + len(k - 1) }

  function Constantly<E>(e: E): nat -> E { (t: nat) => e }

  lemma StageAfter<S(!new), E(!new)>(at: (nat, S) -> bool, s: S, step: (S, E) -> S, e: E, k: nat,
                                     before: nat, more: nat)
    requires at(k + 1, Run(Run(s, step, Constantly(e), before), step, Constantly(e), more))
    ensures at(k + 1, Run(s, step, Constantly(e), before + more))
  {
    Split(s, step, Constantly(e), Constantly(e), before, more);
  }

  /** Under one environment for ever, stages of known length one after the other. */
  lemma {:induction false} Stages<S(!new), E(!new)>(at: (nat, S) -> bool, s: S, step: (S, E) -> S, e: E,
                                                    len: nat -> nat, k: nat)
    requires at(0, s)
    requires forall j: nat, x {:trigger at(j, x), len(j)} :: at(j, x) ==> at(j + 1, Run(x, step, Constantly(e), len(j)))
    ensures at(k, Run(s, step, Constantly(e), Sum(len, k)))
  {
    if k > 0 {
      var before: nat := k - 1;
      Stages(at, s, step, e, len, before);
      StageAfter(at, s, step, e, before, Sum(len, before), len(before));
    }
  }

  // -------------------------------------------------------------------- waiting

  function NextWait(wait: nat, idle: bool): nat { if idle then wait + 1 else 0 }

  /** For how many cycles in a row, up to cycle n, nothing has been done that was due. */
  function Waited<S, E>(s: S, step: (S, E) -> S, idle: (S, E) -> bool, env: nat -> E, n: nat): nat {
    if n == 0 then 0
    else NextWait(Waited(s, step, idle, env, n - 1), idle(Run(s, step, env, n - 1), env(n - 1)))
  }

  /** Never more than `bound` cycles in a row, in the first n. */
  predicate Patient<S, E>(s: S, step: (S, E) -> S, idle: (S, E) -> bool, env: nat -> E, bound: nat, n: nat) {
    n == 0 || (Patient(s, step, idle, env, bound, n - 1)
               && (idle(Run(s, step, env, n - 1), env(n - 1)) ==> Waited(s, step, idle, env, n - 1) < bound))
  }

  lemma {:induction false} PatientWaits<S, E>(s: S, step: (S, E) -> S, idle: (S, E) -> bool, env: nat -> E,
                                              bound: nat, n: nat)
    requires Patient(s, step, idle, env, bound, n)
    ensures Waited(s, step, idle, env, n) <= bound
  {
    if n > 0 { PatientWaits(s, step, idle, env, bound, n - 1); }
  }

  /** Two parties that may keep the run waiting: what each may leave undone and for how
      long. */
  datatype Parties<!S, !E> = Parties(idle1: (S, E) -> bool, bound1: nat, idle2: (S, E) -> bool, bound2: nat)

  predicate BothPatient<S, E>(s: S, step: (S, E) -> S, p: Parties<S, E>, env: nat -> E, n: nat) {
    Patient(s, step, p.idle1, env, p.bound1, n) && Patient(s, step, p.idle2, env, p.bound2, n)
  }

  /** In this cycle neither party has been waited for too long. */
  predicate InTime<S, E>(x: S, e: E, p: Parties<S, E>, w1: nat, w2: nat) {
    w1 <= p.bound1 && w2 <= p.bound2 && (p.idle1(x, e) ==> w1 < p.bound1) && (p.idle2(x, e) ==> w2 < p.bound2)
  }

  /** The rank after a cycle, the waits moving on. */
  function RankAfter<S, E>(rank: (S, nat, nat) -> nat, t: S, x: S, e: E, p: Parties<S, E>, w1: nat, w2: nat): nat {
    rank(t, NextWait(w1, p.idle1(x, e)), NextWait(w2, p.idle2(x, e)))
  }

  /** Every cycle in time lowers the rank until the goal is reached, and it stays reached. */
  ghost predicate Descends<S(!new), E(!new)>(inv: S -> bool, goal: S -> bool, rank: (S, nat, nat) -> nat,
                                             step: (S, E) -> S, ok: (S, E) -> bool, p: Parties<S, E>) {
    forall x, e, w1: nat, w2: nat {:trigger InTime(x, e, p, w1, w2)} ::
      inv(x) && ok(x, e) && InTime(x, e, p, w1, w2) ==>
        && inv(step(x, e)) && (goal(x) ==> goal(step(x, e)))
        && (goal(step(x, e)) || RankAfter(rank, step(x, e), x, e, p, w1, w2) < rank(x, w1, w2))
  }

  lemma {:induction false} Descent<S(!new), E(!new)>(inv: S -> bool, goal: S -> bool, rank: (S, nat, nat) -> nat, s: S,
                                                     step: (S, E) -> S, ok: (S, E) -> bool, p: Parties<S, E>,
                                                     env: nat -> E, n: nat)
    requires inv(s) && Descends(inv, goal, rank, step, ok, p)
    requires Kept(s, step, ok, env, n) && BothPatient(s, step, p, env, n)
    ensures var x := Run(s, step, env, n);
      var w1, w2 := Waited(s, step, p.idle1, env, n), Waited(s, step, p.idle2, env, n);
      inv(x) && (goal(x) || rank(x, w1, w2) + n <= rank(s, 0, 0))
  {
    if n > 0 {
      Descent(inv, goal, rank, s, step, ok, p, env, n - 1);
      PatientWaits(s, step, p.idle1, env, p.bound1, n - 1);
      PatientWaits(s, step, p.idle2, env, p.bound2, n - 1);
      assert InTime(Run(s, step, env, n - 1), env(n - 1), p, Waited(s, step, p.idle1, env, n - 1),
                    Waited(s, step, p.idle2, env, n - 1));
    }
  }

  /** So it is reached in more cycles than the rank. */
  lemma Arrival<S(!new), E(!new)>(inv: S -> bool, goal: S -> bool, rank: (S, nat, nat) -> nat, s: S,
                                  step: (S, E) -> S, ok: (S, E) -> bool, p: Parties<S, E>, env: nat -> E, n: nat)
    requires inv(s) && Descends(inv, goal, rank, step, ok, p) && n > rank(s, 0, 0)
    requires Kept(s, step, ok, env, n) && BothPatient(s, step, p, env, n)
    ensures inv(Run(s, step, env, n)) && goal(Run(s, step, env, n))
  {
    Descent(inv, goal, rank, s, step, ok, p, env, n);
  }

  /** A party that never keeps anyone waiting. */
  function Nobody<S, E>(): (S, E) -> bool { (s: S, e: E) => false }

  lemma {:induction false} NobodyWaits<S, E>(s: S, step: (S, E) -> S, env: nat -> E, n: nat)
    ensures Patient(s, step, Nobody(), env, 0, n)
  {
    if n > 0 { NobodyWaits(s, step, env, n - 1); }
  }

  /** Cycles for some events, each at most `bound` cycles after the one before. */
  function CyclesFor(events: nat, bound: nat): nat { events * (bound + 1) }

  function CyclesLeft(events: nat, bound: nat, wait: nat): nat {
    if CyclesFor(events, bound) < wait then 0 else CyclesFor(events, bound) - wait
  }

  lemma MoreEvents(fewer: nat, more: nat, bound: nat)
    ensures fewer <= more ==> CyclesFor(fewer, bound) <= CyclesFor(more, bound)
    ensures fewer < more ==> CyclesFor(fewer, bound) + bound + 1 <= CyclesFor(more, bound)
  {
    if fewer < more { assert (more - fewer - 1) * (bound + 1) >= 0; }
    if fewer <= more { assert (more - fewer) * (bound + 1) >= 0; }
  }

  /** A cycle spent waiting, or an event. */
  lemma CloserToEnd(before: nat, after: nat, bound: nat, wait: nat, idle: bool)
    requires before > 0 && wait <= bound && (idle ==> wait < bound)
    requires if idle then after <= before else after < before
    ensures CyclesLeft(after, bound, NextWait(wait, idle)) < CyclesLeft(before, bound, wait)
  {
    MoreEvents(0, before, bound);
    MoreEvents(after, before, bound);
  }

  function Spans(k: nat, span: nat): nat { k * span }

  /** Cycles for what is left, a span for each but the current one, which needs `local`. */
  function StageCycles(left: nat, span: nat, local: nat): nat {
    if left == 0 then 0 else Spans(left - 1, span) + local
  }

  lemma NextStage(left: nat, span: nat, local: nat, next: nat)
    requires left > 0
    ensures next < local ==> StageCycles(left, span, next) < StageCycles(left, span, local)
    ensures left > 1 && next < span ==> StageCycles(left - 1, span, next) < StageCycles(left, span, local)
    ensures local < span ==> StageCycles(left, span, local) < Spans(left, span)
  {
    assert (left - 1) * span == left * span - span;
    if left > 1 { assert (left - 2) * span == (left - 1) * span - span; }
  }
}
