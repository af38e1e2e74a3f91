/** The RVFI monitor's reorder queue (send_rvfi and empty_fifo): retired instructions
    arrive out of order and leave in order. */
module ReorderQueue {
  const LIMIT: nat := 50

  /** A trace entry: its order number, the one CSR field rewritten on the way through the
      queue, and everything else. */
  datatype Insn<T> = Insn(order: nat, fs: int, body: T)

  /** What was handed on, what waits, and the order number due next. */
  datatype State<T> = State(sent: seq<Insn<T>>, waiting: seq<Insn<T>>, next: nat)

  /** One pass over a queue: the entries handed on, each the one due when it is reached. */
  function Emitted<T>(q: seq<Insn<T>>, next: nat, fs: int): (e: seq<Insn<T>>)
    ensures forall i :: 0 <= i < |e| ==> e[i].order == next + i
  {
    if q == [] then []
    else if q[0].order == next then [q[0].(fs := fs)] + Emitted(q[1..], next + 1, fs)
    else Emitted(q[1..], next, fs)
  }

  /** The entries put back, in their order. */
  function Kept<T>(q: seq<Insn<T>>, next: nat): seq<Insn<T>> {
    if q == [] then []
    else if q[0].order == next then Kept(q[1..], next + 1)
    else [q[0]] + Kept(q[1..], next)
  }

  /** The pass from entry i on, in terms of the pass from the next entry on. */
  lemma PassFront<T>(q: seq<Insn<T>>, i: nat, next: nat, fs: int)
    requires i < |q|
    ensures if q[i].order == next then
              && Emitted(q[i..], next, fs) == [q[i].(fs := fs)] + Emitted(q[i + 1..], next + 1, fs)
              && Kept(q[i..], next) == Kept(q[i + 1..], next + 1)
            else
              && Emitted(q[i..], next, fs) == Emitted(q[i + 1..], next, fs)
              && Kept(q[i..], next) == [q[i]] + Kept(q[i + 1..], next)
  {
    assert q[i..][1..] == q[i + 1..];
  }

  function Pass<T>(s: State<T>, fs: int): State<T> {
    var e := Emitted(s.waiting, s.next, fs);
    if |s.waiting| > LIMIT then s
    else State(s.sent + e, Kept(s.waiting, s.next), s.next + |e|)
  }

  function Arrive<T>(s: State<T>, x: Insn<T>): State<T> {
    if s.next == x.order then State(s.sent + [x], s.waiting, s.next + 1)
    else s.(waiting := s.waiting + [x])
  }

  function Send<T>(s: State<T>, x: Insn<T>, fs: int): State<T> { Pass(Arrive(s, x), fs) }

  class Monitor<T> {
    var rvfiTrace: seq<Insn<T>>
    var bypassTrace: seq<Insn<T>>
    var nextSend: nat

    function Contents(): State<T>
      reads this
    {
      State(rvfiTrace, bypassTrace, nextSend)
    }

    constructor ()
      ensures Contents() == State([], [], 1)
    {
      rvfiTrace, bypassTrace, nextSend := [], [], 1;
    }

    /** One turn of the loop: the front entry is handed on or put back. */
    method Turn(fs: int) returns (entry: Insn<T>)
      requires bypassTrace != []
      modifies this
      ensures entry == old(bypassTrace)[0]
      ensures if old(nextSend) == entry.order then
                && Contents() == State(old(rvfiTrace) + [entry.(fs := fs)],
                                       old(bypassTrace)[1..], old(nextSend) + 1)
              else
                && Contents() == State(old(rvfiTrace), old(bypassTrace)[1..] + [entry], old(nextSend))
    {
      entry := bypassTrace[0];
      bypassTrace := bypassTrace[1..];
      if nextSend == entry.order {
        rvfiTrace := rvfiTrace + [entry.(fs := fs)];
        nextSend := nextSend + 1;
      } else {
        bypassTrace := bypassTrace + [entry];
      }
    }

    /** One pass; a queue over the limit is a fatal error. */
    method EmptyFifo(fs: int) returns (fatal: bool)
      modifies this
      ensures fatal <==> |old(bypassTrace)| > LIMIT
      ensures Contents() == Pass(old(Contents()), fs)
    {
      var size := |bypassTrace|;
      if size > LIMIT { return true; }
      fatal := false;
      ghost var q, trace, n, kept := bypassTrace, rvfiTrace, nextSend, [];
      for i := 0 to size
        invariant bypassTrace == q[i..] + kept
        invariant kept + Kept(q[i..], nextSend) == Kept(q, n)
        invariant rvfiTrace + Emitted(q[i..], nextSend, fs) == trace + Emitted(q, n, fs)
        invariant nextSend + |Emitted(q[i..], nextSend, fs)| == n + |Emitted(q, n, fs)|
      {
        PassFront(q, i, nextSend, fs);
        ghost var due := nextSend;
        assert bypassTrace[1..] == q[i + 1..] + kept;
        var entry := Turn(fs);
        if due != entry.order { kept := kept + [entry]; }
      }
    }

    method SendRvfi(x: Insn<T>, fs: int) returns (fatal: bool)
      modifies this
      ensures Contents() == Send(old(Contents()), x, fs)
      ensures fatal <==> |Arrive(old(Contents()), x).waiting| > LIMIT
    {
      if nextSend == x.order {
        rvfiTrace := rvfiTrace + [x];
        nextSend := nextSend + 1;
      } else {
        bypassTrace := bypassTrace + [x];
      }
      fatal := EmptyFifo(fs);
    }
  }

  // ----------------------------------------------------------------------- one pass

  /** Order number and contents, without the rewritten field. */
  function Plain<T>(q: seq<Insn<T>>): (p: seq<(nat, T)>)
    ensures |p| == |q|
  {
    seq(|q|, i requires 0 <= i < |q| => (q[i].order, q[i].body))
  }

  lemma PlainFront<T>(x: Insn<T>, q: seq<Insn<T>>)
    ensures multiset(Plain([x] + q)) == multiset{(x.order, x.body)} + multiset(Plain(q))
  {
    assert Plain([x] + q) == [(x.order, x.body)] + Plain(q);
  }

  /** A pass loses and duplicates nothing. */
  lemma {:induction false} PassConserves<T>(q: seq<Insn<T>>, next: nat, fs: int)
    ensures multiset(Plain(Emitted(q, next, fs))) + multiset(Plain(Kept(q, next))) == multiset(Plain(q))
  {
    if q != [] {
      var rest := q[1..];
      assert q == [q[0]] + rest;
      PlainFront(q[0], rest);
      if q[0].order == next {
        PassConserves(rest, next + 1, fs);
        PlainFront(q[0].(fs := fs), Emitted(rest, next + 1, fs));
      } else {
        PassConserves(rest, next, fs);
        PlainFront(q[0], Kept(rest, next));
      }
    }
  }

  /** A pass hands something on exactly when the entry due is waiting, and that one first. */
  lemma {:induction false} PassEmitsDue<T>(q: seq<Insn<T>>, next: nat, fs: int)
    ensures Emitted(q, next, fs) != [] <==> exists i :: 0 <= i < |q| && q[i].order == next
  {
    if q != [] && q[0].order != next {
      PassEmitsDue(q[1..], next, fs);
      if Emitted(q, next, fs) != [] {
        var i :| 0 <= i < |q[1..]| && q[1..][i].order == next;
        assert q[i + 1].order == next;
      }
      if i :| 0 <= i < |q| && q[i].order == next {
        assert q[1..][i - 1].order == next;
      }
    }
  }

  /** A pass empties the queue exactly when it holds the numbers due in their order. */
  lemma {:induction false} PassEmptiesIff<T>(q: seq<Insn<T>>, next: nat)
    ensures Kept(q, next) == [] <==> forall i :: 0 <= i < |q| ==> q[i].order == next + i
  {
    if q != [] && q[0].order == next {
      PassEmptiesIff(q[1..], next + 1);
      if forall i :: 0 <= i < |q| ==> q[i].order == next + i {
        forall i | 0 <= i < |q[1..]| ensures q[1..][i].order == next + 1 + i { assert q[i + 1].order == next + i + 1; }
      }
      if Kept(q, next) == [] {
        forall i | 0 <= i < |q| ensures q[i].order == next + i { if i > 0 { assert q[1..][i - 1].order == next + i; } }
      }
    }
  }

  lemma {:induction false} EmittedWasWaiting<T>(q: seq<Insn<T>>, next: nat, fs: int, k: nat)
    requires k < |Emitted(q, next, fs)|
    ensures exists i :: 0 <= i < |q| && q[i].order == next + k
  {
    if q[0].order == next {
      if k > 0 {
        EmittedWasWaiting(q[1..], next + 1, fs, k - 1);
        var i :| 0 <= i < |q[1..]| && q[1..][i].order == next + 1 + (k - 1);
        assert q[i + 1].order == next + k;
      }
    } else {
      EmittedWasWaiting(q[1..], next, fs, k);
      var i :| 0 <= i < |q[1..]| && q[1..][i].order == next + k;
      assert q[i + 1].order == next + k;
    }
  }

  /** What is put back is not below what is due, and still without repetition. */
  lemma {:induction false} KeptAhead<T>(q: seq<Insn<T>>, next: nat, fs: int)
    requires forall i :: 0 <= i < |q| ==> q[i].order >= next
    requires Distinct(q)
    ensures var k := Kept(q, next);
      && Distinct(k) && (forall i :: 0 <= i < |k| ==> k[i] in q && k[i].order >= next + |Emitted(q, next, fs)|)
  {
    if q != [] {
      var rest := q[1..];
      assert forall i :: 0 <= i < |rest| ==> rest[i] == q[i + 1];
      if q[0].order == next {
        KeptAhead(rest, next + 1, fs);
      } else {
        KeptAhead(rest, next, fs);
        if q[0].order < next + |Emitted(rest, next, fs)| {
          EmittedWasWaiting(rest, next, fs, q[0].order - next);
        }
      }
    }
  }

  predicate Distinct<T>(q: seq<Insn<T>>) {
    forall i, j :: 0 <= i < j < |q| ==> q[i].order != q[j].order
  }

  /** The j-th entry is the one due when the pass reaches it: it is due at the start, or
      its predecessor stands before it and is handed on. */
  predicate HandedOn<T>(q: seq<Insn<T>>, next: nat, j: nat)
    requires j < |q|
    decreases j
  {
    q[j].order == next
    || exists l :: 0 <= l < j && q[l].order + 1 == q[j].order && HandedOn(q, next, l)
  }

  /** A queue as it stands before a pass: no number twice, none below what is due. */
  predicate Ready<T>(q: seq<Insn<T>>, next: nat) {
    Distinct(q) && forall i :: 0 <= i < |q| ==> q[i].order >= next
  }

  /** Behind an entry that is passed over the rest of the queue is on its own. */
  lemma {:induction false} HandedOnBehind<T>(q: seq<Insn<T>>, next: nat, j: nat)
    requires Ready(q, next) && 0 < j < |q|
    ensures HandedOn(q, next, j)
       <==> HandedOn(q[1..], if q[0].order == next then next + 1 else next, j - 1)
    decreases j
  {
    var rest, due := q[1..], if q[0].order == next then next + 1 else next;
    forall l | 0 < l < j ensures HandedOn(q, next, l) <==> HandedOn(rest, due, l - 1) {
      HandedOnBehind(q, next, l);
    }
    assert HandedOn(q, next, 0) <==> q[0].order == next;
    if HandedOn(q, next, j) && rest[j - 1].order != due {
      var l :| 0 <= l < j && q[l].order + 1 == q[j].order && HandedOn(q, next, l);
      assert l > 0 && rest[l - 1] == q[l];
    }
    if HandedOn(rest, due, j - 1) && q[j].order != next {
      if rest[j - 1].order == due {
        assert q[0].order + 1 == q[j].order;
      } else {
        var l :| 0 <= l < j - 1 && rest[l].order + 1 == rest[j - 1].order && HandedOn(rest, due, l);
        assert q[l + 1] == rest[l] && HandedOn(q, next, l + 1);
      }
    }
  }

  /** A pass hands on exactly these entries. */
  lemma {:induction false} HandedOnIff<T>(q: seq<Insn<T>>, next: nat, fs: int, j: nat)
    requires Ready(q, next) && j < |q|
    ensures HandedOn(q, next, j) <==> q[j].order < next + |Emitted(q, next, fs)|
  {
    var rest, due := q[1..], if q[0].order == next then next + 1 else next;
    assert forall i :: 0 <= i < |rest| ==> rest[i] == q[i + 1];
    if j > 0 {
      HandedOnBehind(q, next, j);
      HandedOnIff(rest, due, fs, j - 1);
    } else if q[0].order != next && q[0].order < next + |Emitted(rest, next, fs)| {
      EmittedWasWaiting(rest, next, fs, q[0].order - next);
    }
  }

  /** Some entry stands before its predecessor, which the pass hands on. */
  predicate PassedTooEarly<T>(q: seq<Insn<T>>, next: nat) {
    exists i, j :: 0 <= i < j < |q| && q[i].order == q[j].order + 1 && HandedOn(q, next, j)
  }

  /** A pass leaves the entry that is due after it exactly when that entry stands before
      its predecessor and the predecessor is handed on: it is passed over too early. */
  lemma DueLeftIff<T>(q: seq<Insn<T>>, next: nat, fs: int)
    requires Ready(q, next)
    ensures (exists i :: 0 <= i < |q| && q[i].order == next + |Emitted(q, next, fs)|) <==> PassedTooEarly(q, next)
  {
    var emitted := |Emitted(q, next, fs)|;
    if i :| 0 <= i < |q| && q[i].order == next + emitted {
      PassEmitsDue(q, next, fs);
      EmittedWasWaiting(q, next, fs, emitted - 1);
      var j :| 0 <= j < |q| && q[j].order == next + (emitted - 1);
      HandedOnIff(q, next, fs, i);
      HandedOnIff(q, next, fs, j);
      assert i < j;
    }
    if PassedTooEarly(q, next) {
      var i, j :| 0 <= i < j < |q| && q[i].order == q[j].order + 1 && HandedOn(q, next, j);
      HandedOnIff(q, next, fs, i);
      HandedOnIff(q, next, fs, j);
      assert q[i].order == next + emitted;
    }
  }

  /** The entry due is waiting. */
  predicate DueWaits<T>(s: State<T>) { exists i :: 0 <= i < |s.waiting| && s.waiting[i].order == s.next }

  /** What is put back are the entries not handed on. */
  lemma KeptOrders<T>(q: seq<Insn<T>>, next: nat, fs: int, order: nat)
    requires order >= next + |Emitted(q, next, fs)|
    ensures (exists i :: 0 <= i < |q| && q[i].order == order)
       <==> (exists i :: 0 <= i < |Kept(q, next)| && Kept(q, next)[i].order == order)
  {
    var e, k := Emitted(q, next, fs), Kept(q, next);
    PassConserves(q, next, fs);
    if i :| 0 <= i < |q| && q[i].order == order {
      assert Plain(q)[i] in multiset(Plain(e)) + multiset(Plain(k));
      forall l | 0 <= l < |e| ensures Plain(e)[l].0 != order { assert e[l].order == next + l; }
      var l :| 0 <= l < |k| && Plain(k)[l] == Plain(q)[i];
      assert k[l].order == order;
    }
    if i :| 0 <= i < |k| && k[i].order == order {
      assert Plain(k)[i] in multiset(Plain(q));
      var l :| 0 <= l < |q| && Plain(q)[l] == Plain(k)[i];
      assert q[l].order == order;
    }
  }

  /** A pass over a queue within the limit leaves the due entry waiting exactly when one is
      passed over too early; over the limit nothing is handed on. */
  lemma PassLeavesDueIff<T>(s: State<T>, fs: int)
    requires Ready(s.waiting, s.next)
    ensures DueWaits(Pass(s, fs)) <==> if |s.waiting| > LIMIT then DueWaits(s) else PassedTooEarly(s.waiting, s.next)
  {
    if |s.waiting| <= LIMIT {
      DueLeftIff(s.waiting, s.next, fs);
      KeptOrders(s.waiting, s.next, fs, s.next + |Emitted(s.waiting, s.next, fs)|);
    }
  }

  // -------------------------------------------------------------------- whole runs

  /** The state after the arrivals, fs(t) being the CSR value at the t-th. */
  function After<T>(arrivals: seq<Insn<T>>, fs: nat -> int): State<T> {
    if arrivals == [] then State([], [], 1)
    else
      var n := |arrivals| - 1;
      Send(After(arrivals[..n], fs), arrivals[n], fs(n))
  }

  /** What was handed on is numbered 1, 2, 3, ...; what waits is distinct and not below
      what is due. */
  predicate InOrder<T>(s: State<T>) {
    && s.next == |s.sent| + 1
    && (forall i :: 0 <= i < |s.sent| ==> s.sent[i].order == i + 1)
    && Distinct(s.waiting)
    && (forall i :: 0 <= i < |s.waiting| ==> s.waiting[i].order >= s.next)
  }

  /** Everything sent or waiting has arrived. */
  ghost predicate FromArrivals<T>(s: State<T>, arrivals: seq<Insn<T>>) {
    multiset(Plain(s.sent)) + multiset(Plain(s.waiting)) == multiset(Plain(arrivals))
  }

  lemma PassKeepsOrder<T>(s: State<T>, fs: int)
    requires InOrder(s)
    ensures InOrder(Pass(s, fs))
    ensures multiset(Plain(Pass(s, fs).sent)) + multiset(Plain(Pass(s, fs).waiting))
         == multiset(Plain(s.sent)) + multiset(Plain(s.waiting))
  {
    if |s.waiting| <= LIMIT {
      var e := Emitted(s.waiting, s.next, fs);
      KeptAhead(s.waiting, s.next, fs);
      PassConserves(s.waiting, s.next, fs);
      assert Plain(s.sent + e) == Plain(s.sent) + Plain(e);
    }
  }

  lemma ArriveKeepsOrder<T>(s: State<T>, x: Insn<T>)
    requires InOrder(s) && x.order >= s.next
    requires forall i :: 0 <= i < |s.waiting| ==> s.waiting[i].order != x.order
    ensures InOrder(Arrive(s, x))
    ensures multiset(Plain(Arrive(s, x).sent)) + multiset(Plain(Arrive(s, x).waiting))
         == multiset(Plain(s.sent)) + multiset(Plain(s.waiting)) + multiset{(x.order, x.body)}
  {
    assert Plain(s.sent + [x]) == Plain(s.sent) + [(x.order, x.body)];
    assert Plain(s.waiting + [x]) == Plain(s.waiting) + [(x.order, x.body)];
  }

  /** Each order number is sent once, from 1 on. */
  predicate SentOnce<T>(arrivals: seq<Insn<T>>) {
    Distinct(arrivals) && forall i :: 0 <= i < |arrivals| ==> arrivals[i].order >= 1
  }

  /** A new order number is neither sent, nor waiting, nor below what is due. */
  lemma NewArrival<T>(s: State<T>, arrivals: seq<Insn<T>>, x: Insn<T>)
    requires InOrder(s) && FromArrivals(s, arrivals)
    requires x.order >= 1 && forall i :: 0 <= i < |arrivals| ==> arrivals[i].order != x.order
    ensures x.order >= s.next
    ensures forall i :: 0 <= i < |s.waiting| ==> s.waiting[i].order != x.order
  {
    forall p | p in Plain(s.sent) || p in Plain(s.waiting) ensures p.0 != x.order {
      assert p in multiset(Plain(s.sent)) + multiset(Plain(s.waiting));
      assert p in multiset(Plain(arrivals));
    }
    var same := if x.order <= |s.sent| then s.sent[x.order - 1].order else 0;
    forall i | 0 <= i < |s.sent| ensures s.sent[i].order != x.order {
      assert Plain(s.sent)[i] in Plain(s.sent);
    }
    forall i | 0 <= i < |s.waiting| ensures s.waiting[i].order != x.order {
      assert Plain(s.waiting)[i] in Plain(s.waiting);
    }
  }

  /** For every arrival order: the entries handed on are numbered exactly 1, 2, 3, ..., and
      together with those waiting they are the arrivals, none lost or doubled. */
  lemma {:induction false} SentInOrder<T>(arrivals: seq<Insn<T>>, fs: nat -> int)
    requires SentOnce(arrivals)
    ensures InOrder(After(arrivals, fs)) && FromArrivals(After(arrivals, fs), arrivals)
  {
    if arrivals != [] {
      var n := |arrivals| - 1;
      var s, x := After(arrivals[..n], fs), arrivals[n];
      SentInOrder(arrivals[..n], fs);
      NewArrival(s, arrivals[..n], x);
      ArriveKeepsOrder(s, x);
      PassKeepsOrder(Arrive(s, x), fs(n));
      assert arrivals == arrivals[..n] + [x];
      assert Plain(arrivals) == Plain(arrivals[..n]) + [(x.order, x.body)];
    }
  }

  /** For every arrival order, the entry due is left waiting by the last arrival exactly
      when the queue then holds it before its predecessor and the predecessor is handed on
      (or the limit is passed and it was waiting before). */
  lemma DueLeftAfterIff<T>(arrivals: seq<Insn<T>>, fs: nat -> int)
    requires SentOnce(arrivals) && arrivals != []
    ensures var n := |arrivals| - 1; var s := Arrive(After(arrivals[..n], fs), arrivals[n]);
      DueWaits(After(arrivals, fs)) <==>
        if |s.waiting| > LIMIT then DueWaits(s) else PassedTooEarly(s.waiting, s.next)
  {
    var n := |arrivals| - 1;
    var s := After(arrivals[..n], fs);
    SentInOrder(arrivals[..n], fs);
    NewArrival(s, arrivals[..n], arrivals[n]);
    ArriveKeepsOrder(s, arrivals[n]);
    PassLeavesDueIff(Arrive(s, arrivals[n]), fs(n));
  }

  lemma {:induction false} AllKept<T>(q: seq<Insn<T>>, next: nat, fs: int)
    requires forall i :: 0 <= i < |q| ==> q[i].order != next
    ensures Emitted(q, next, fs) == [] && Kept(q, next) == q
  {
    if q != [] { AllKept(q[1..], next, fs); }
  }

  /** A pass without the entry due changes nothing. */
  lemma NothingDue<T>(s: State<T>, fs: int)
    requires forall i :: 0 <= i < |s.waiting| ==> s.waiting[i].order != s.next
    ensures Pass(s, fs) == s
  {
    AllKept(s.waiting, s.next, fs);
    assert s.sent + [] == s.sent;
  }

  /** An entry can be due and still wait for the next arrival: one pass does not look
      back. Here 3 is passed over before 2 is handed on. */
  lemma DueEntryCanWait(fs: nat -> int)
    ensures var s := After([Insn(3, 0, ()), Insn(2, 0, ()), Insn(1, 0, ())], fs);
      s.next == 3 && s.waiting == [Insn(3, 0, ())] && DueWaits(s)
  {
    var a, b, c := Insn(3, 0, ()), Insn(2, 0, ()), Insn(1, 0, ());
    assert [a, b, c][..2] == [a, b] && [a, b][..1] == [a] && [a][..0] == [];
    assert [a, b][1..] == [b] && [a][1..] == [] && [b][1..] == [];
    NothingDue(State([], [a], 1), fs(0));
    assert Arrive(State([], [], 1), a) == State([], [a], 1);
    assert After([a], fs) == Send(After([a][..0], fs), a, fs(0));
    NothingDue(State([], [a, b], 1), fs(1));
    assert After([a, b], fs) == Send(After([a], fs), b, fs(1));
    var s := State([c], [a, b], 2);
    assert Arrive(State([], [a], 1), b) == State([], [a, b], 1) && Arrive(State([], [a, b], 1), c) == s;
    assert After([a, b], fs) == State([], [a, b], 1);
    assert After([a, b, c], fs) == Send(After([a, b, c][..2], fs), c, fs(2)) == Pass(s, fs(2));
    assert Kept([a, b], 2) == [a] + Kept([b], 2) && Kept([b], 2) == [];
    assert Emitted([a, b], 2, fs(2)) == Emitted([b], 2, fs(2)) == [b.(fs := fs(2))] + Emitted([b][1..], 3, fs(2));
    assert After([a, b, c], fs).waiting[0] == a;
  }
}
