/** The prefetch buffer as it is built: the prefetch controller and the bus interface around
    the circular buffer, which tells the controller its count and offers its head. */
module PrefetchBuffer {
  import A = Aligner
  import F = Fifo
  import Q = Prefetcher
  import opened Runs

  type Buffer = r: F.Regs<A.Word> | F.Fits(r, Q.DEPTH)
    witness F.Regs([A.Word(0, 0), A.Word(0, 0)], 0, 0, 0)

  type Env = Q.Env

  type Code = Q.Code

  datatype Sys = Sys(ctl: Q.Ctl, buf: Buffer, obi: Q.Obi, granted: seq<nat>, next: nat, redirect: A.Option<nat>)

  /** The same with the words held as a queue. */
  function View(s: Sys): Q.Sys {
    Q.Sys(s.ctl, F.Contents(s.buf, Q.DEPTH), s.obi, s.granted, s.next, s.redirect)
  }

  function Inputs(s: Sys, e: Env, code: Code): Q.In {
    Q.In(e.req, e.branch, e.jump, e.ready, e.gnt, e.rvalid, code(if s.granted != [] then s.granted[0] else 0))
  }

  function BufferIn(s: Sys, e: Env, code: Code): F.In<A.Word> { Q.FifoIn(s.ctl, s.buf.cnt, Inputs(s, e, code)) }

  function BufferOut(s: Sys, e: Env, code: Code): F.Out<A.Word> {
    F.Outputs(s.buf, BufferIn(s, e, code), Q.DEPTH, false)
  }

  predicate Valid(s: Sys, e: Env, code: Code) {
    Q.FetchValid(s.ctl, BufferOut(s, e, code).cnt, Inputs(s, e, code))
  }

  /** fetch_rdata_o: what the bus delivers while the buffer is empty, else its head. */
  function Offered(s: Sys, e: Env, code: Code): A.Word {
    if BufferOut(s, e, code).empty then Inputs(s, e, code).rdata else BufferOut(s, e, code).data
  }

  predicate Accepts(s: Sys, e: Env, code: Code, pulpObi: bool) {
    Q.TransValid(s.ctl, BufferOut(s, e, code).cnt, Inputs(s, e, code), pulpObi) && !s.obi.registered
  }

  function Tick(s: Sys, e: Env, code: Code, pulpObi: bool): Sys {
    var i := Inputs(s, e, code);
    var accepted := Accepts(s, e, code, pulpObi);
    var addr := Q.TransAddr(s.ctl, i);
    var answered := if e.rvalid && s.granted != [] then s.granted[1..] else s.granted;
    Sys(Q.NextCtl(s.ctl, BufferOut(s, e, code).cnt, i, accepted),
        F.Next(s.buf, BufferIn(s, e, code), Q.DEPTH, false),
        if s.obi.registered then Q.Obi(!e.gnt, s.obi.addr) else if accepted && !e.gnt then Q.Obi(true, addr) else s.obi,
        if s.obi.registered && e.gnt then answered + [s.obi.addr]
        else if accepted && e.gnt then answered + [addr] else answered,
        Q.NextWanted(s.next, s.redirect, e),
        Q.NextRedirect(s.redirect, e))
  }

  /** Two slots: flush-but-first fits in every state. */
  lemma TwoSlots(r: Buffer)
    ensures F.FlushFits(r, Q.DEPTH)
  {
  }

  lemma OutputsAgree(s: Sys, e: Env, code: Code)
    requires F.Sound(s.buf, Q.DEPTH)
    ensures BufferOut(s, e, code).cnt == |View(s).fifo|
    ensures Valid(s, e, code) == Q.Valid(View(s), e, code)
    ensures Offered(s, e, code) == Q.Offered(View(s), e, code)
  {
    F.OutputsRefine(s.buf, BufferIn(s, e, code), Q.DEPTH, false);
  }

  /** One cycle with the circular buffer is one cycle with the queue. */
  lemma TickRefines(s: Sys, e: Env, code: Code, pulpObi: bool)
    requires F.Sound(s.buf, Q.DEPTH)
    ensures F.Sound(Tick(s, e, code, pulpObi).buf, Q.DEPTH)
    ensures View(Tick(s, e, code, pulpObi)) == Q.Tick(View(s), e, code, pulpObi)
  {
    OutputsAgree(s, e, code);
    TwoSlots(s.buf);
    F.StepRefines(s.buf, BufferIn(s, e, code), Q.DEPTH, false);
  }

  predicate Inv(s: Sys, code: Code) { F.Sound(s.buf, Q.DEPTH) && Q.Inv(View(s), code) }

  /** Every cycle of every branch, jump, bus and consumer pattern keeps the invariant. */
  lemma InvStep(s: Sys, e: Env, code: Code, pulpObi: bool)
    requires Inv(s, code) && Q.Allowed(View(s), e, code)
    ensures Inv(Tick(s, e, code, pulpObi), code)
  {
    TickRefines(s, e, code, pulpObi);
    Q.InvStep(View(s), e, code, pulpObi);
  }

  /** Whenever a word is offered it is the stream's next. */
  lemma OfferedIsNext(s: Sys, e: Env, code: Code)
    requires Inv(s, code) && Q.Allowed(View(s), e, code) && Valid(s, e, code)
    ensures Offered(s, e, code) == code(s.next)
  {
    OutputsAgree(s, e, code);
    Q.OfferedIsNext(View(s), e, code);
  }

  // -------------------------------------------------------------------- whole runs

  /** Reset. */
  function Start(): Sys {
    Sys(Q.Ctl(false, 0, 0, 0, false, 0), F.Regs([A.Word(0, 0), A.Word(0, 0)], 0, 0, 0), Q.Obi(false, 0), [],
        A.NextWord(0), A.None)
  }

  function Stepper(code: Code, pulpObi: bool): (Sys, Env) -> Sys { (s: Sys, e: Env) => Tick(s, e, code, pulpObi) }

  function Obeys(code: Code): (Sys, Env) -> bool {
    (s: Sys, e: Env) => Q.Counted(View(s)) && Q.Allowed(View(s), e, code)
  }

  /** Along every run, whatever the grants, the answers, the branches and the loop jumps, the
      circular buffer holds the words the controller's count says, at most two transactions
      are unanswered, and a word offered is the stream's next. */
  lemma BufferedStream(env: nat -> Env, code: Code, pulpObi: bool, n: nat)
    requires Kept(Start(), Stepper(code, pulpObi), Obeys(code), env, n)
    ensures var s := Run(Start(), Stepper(code, pulpObi), env, n);
      && Inv(s, code) && s.ctl.cnt <= Q.DEPTH
      && (Q.Allowed(View(s), env(n), code) && Valid(s, env(n), code) ==> Offered(s, env(n), code) == code(s.next))
  {
    var step, ok := Stepper(code, pulpObi), Obeys(code);
    forall x, e | Inv(x, code) && ok(x, e) ensures Inv(step(x, e), code) { InvStep(x, e, code, pulpObi); }
    Invariant((x: Sys) => Inv(x, code), ok, Start(), step, env, n);
    var s := Run(Start(), step, env, n);
    if Q.Allowed(View(s), env(n), code) && Valid(s, env(n), code) { OfferedIsNext(s, env(n), code); }
  }

  // -------------------------------------------------------------------- progress

  /** The bus leaves undone what it owes. */
  predicate BusIdles(s: Sys, e: Env, code: Code, pulpObi: bool) { Q.BusIdles(View(s), e, code, pulpObi) }

  function Untaken(code: Code): (Sys, Env) -> bool { (s: Sys, e: Env) => Q.Untaken(code)(View(s), e) }

  function Idling(code: Code, pulpObi: bool): (Sys, Env) -> bool {
    (s: Sys, e: Env) => BusIdles(s, e, code, pulpObi)
  }

  /** Along a run the words held are those of the queue's run, and the same is due. */
  lemma {:induction false} RunRefines(s: Sys, env: nat -> Env, code: Code, pulpObi: bool, bound: nat, n: nat)
    requires Inv(s, code) && Kept(s, Stepper(code, pulpObi), Untaken(code), env, n)
    requires Patient(s, Stepper(code, pulpObi), Idling(code, pulpObi), env, bound, n)
    ensures var t := Run(s, Stepper(code, pulpObi), env, n);
      Inv(t, code) && View(t) == Run(View(s), Q.Stepper(code, pulpObi), env, n)
    ensures Kept(View(s), Q.Stepper(code, pulpObi), Q.Untaken(code), env, n)
    ensures Patient(View(s), Q.Stepper(code, pulpObi), Q.Idling(code, pulpObi), env, bound, n)
    ensures Waited(View(s), Q.Stepper(code, pulpObi), Q.Idling(code, pulpObi), env, n)
         == Waited(s, Stepper(code, pulpObi), Idling(code, pulpObi), env, n)
  {
    if n > 0 {
      RunRefines(s, env, code, pulpObi, bound, n - 1);
      var t := Run(s, Stepper(code, pulpObi), env, n - 1);
      TickRefines(t, env(n - 1), code, pulpObi);
      InvStep(t, env(n - 1), code, pulpObi);
    }
  }

  /** From every state the invariant allows, fetching going on and the bus never letting more
      than `bound` cycles in a row pass without granting or answering what it owes, the
      stream's next word is offered within eight such spans, and stays. */
  lemma WordComes(s: Sys, env: nat -> Env, code: Code, pulpObi: bool, bound: nat, n: nat, e: Env)
    requires Inv(s, code) && Kept(s, Stepper(code, pulpObi), Untaken(code), env, n)
    requires Patient(s, Stepper(code, pulpObi), Idling(code, pulpObi), env, bound, n)
    requires n > CyclesFor(Q.MOST_EVENTS, bound) && e.branch == A.None
    ensures var t := Run(s, Stepper(code, pulpObi), env, n);
      Inv(t, code) && Valid(t, e, code) && Offered(t, e, code) == code(s.next)
  {
    RunRefines(s, env, code, pulpObi, bound, n);
    Q.WordComes(View(s), env, code, pulpObi, bound, n, e);
    OutputsAgree(Run(s, Stepper(code, pulpObi), env, n), e, code);
  }
}
