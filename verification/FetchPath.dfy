/** From the instruction bus to the ID stage: the prefetch buffer with its circular buffer
    feeding the aligner, and the same with the logic of one hardware loop or two nested ones
    around it. Nothing is assumed of the words the aligner sees; only the bus has to answer
    what it granted, in order. */
module FetchPath {
  import A = Aligner
  import H = HwLoop
  import L = LoopOrder
  import N = NestedLoops
  import O = OneLoop
  import P = PrefetchBuffer
  import Q = Prefetcher
  import S = LoopStages
  import U = SetupOrder
  import opened Runs

  /** Code memory as the bus delivers it. */
  function Words(code: A.Code): P.Code { (i: nat) => A.Fetched(code, i) }

  // ---------------------------------------------------- prefetch buffer and aligner

  datatype Env = Env(req: bool, branch: A.Option<A.Pc>, haltIf: bool, idReady: bool, gnt: bool, rvalid: bool)

  datatype Sys = Sys(regs: A.Regs, p: P.Sys, target: A.Pc, seen: seq<A.Insn>)

  function Branch(e: Env): A.Option<nat> { if e.branch.Some? then A.Some(e.branch.value.index) else A.None }

  /** The prefetcher's environment, `ready` being the fetch handshake of the IF stage. */
  function Fetching(e: Env, ready: bool): P.Env { Q.Env(e.req, Branch(e), A.None, ready, e.gnt, e.rvalid) }

  predicate Offers(s: Sys, e: Env, code: A.Code) { P.Valid(s.p, Fetching(e, false), Words(code)) }

  function AlignerIn(s: Sys, e: Env, code: A.Code): A.In {
    var valid := Offers(s, e, code);
    A.In(valid, !e.haltIf && valid && e.idReady, P.Offered(s.p, Fetching(e, false), Words(code)),
         e.branch.Some?, if e.branch.Some? then e.branch.value else A.Pc(0, false), false, A.Pc(0, false))
  }

  function Tick(s: Sys, e: Env, code: A.Code, pulpObi: bool): Sys {
    var i := AlignerIn(s, e, code);
    var c := A.Combinational(s.regs, i);
    Sys(A.NextRegs(s.regs, i),
        P.Tick(s.p, Fetching(e, e.branch == A.None && e.req && i.ifValid && c.ready), Words(code), pulpObi),
        if e.branch.Some? then e.branch.value else s.target,
        if e.branch.Some? then []
        else if i.ifValid && c.valid then s.seen + [A.Entering(s.regs.pc, c.instr)] else s.seen)
  }

  /** The bus answers only what it granted; while not requesting, IF is halted. */
  predicate Allowed(s: Sys, e: Env) { (e.rvalid ==> s.p.granted != []) && (!e.req ==> e.haltIf) }

  /** What the aligner's own model sees of the whole. */
  function View(s: Sys): A.Sys { A.Sys(s.regs, s.p.next, s.target, s.seen) }

  function ViewEnv(s: Sys, e: Env, code: A.Code): A.Env {
    A.Env(Offers(s, e, code), e.idReady, e.haltIf, e.req, e.branch, P.Offered(s.p, Fetching(e, false), Words(code)))
  }

  predicate Fetched(s: Sys, code: A.Code) { P.Inv(s.p, Words(code)) && s.p.redirect == A.None }

  lemma ReadyMatters(p: P.Sys, e: Env, code: P.Code, ready: bool)
    ensures P.Valid(p, Fetching(e, ready), code) == P.Valid(p, Fetching(e, false), code)
    ensures P.Offered(p, Fetching(e, ready), code) == P.Offered(p, Fetching(e, false), code)
  {
  }

  /** A word offered is the one at the fetch position of the aligner's model. */
  lemma OfferedWord(s: Sys, e: Env, code: A.Code)
    requires Fetched(s, code) && Allowed(s, e) && Offers(s, e, code)
    ensures P.Offered(s.p, Fetching(e, false), Words(code)) == A.Fetched(code, s.p.next)
  {
    P.OfferedIsNext(s.p, Fetching(e, false), Words(code));
  }

  lemma AlignerSees(s: Sys, e: Env, code: A.Code)
    requires Fetched(s, code) && Allowed(s, e)
    ensures AlignerIn(s, e, code) == A.Inputs(View(s), ViewEnv(s, e, code), code)
  {
    if Offers(s, e, code) { OfferedWord(s, e, code); }
  }

  /** The whole moves as the aligner's model does, and the prefetcher stays on its stream. */
  lemma TickRefines(s: Sys, e: Env, code: A.Code, pulpObi: bool)
    requires Fetched(s, code) && Allowed(s, e)
    ensures View(Tick(s, e, code, pulpObi)) == A.Tick(View(s), ViewEnv(s, e, code), code)
    ensures Fetched(Tick(s, e, code, pulpObi), code)
  {
    AlignerSees(s, e, code);
    var i := AlignerIn(s, e, code);
    var ready := e.branch == A.None && e.req && i.ifValid && A.Combinational(s.regs, i).ready;
    ReadyMatters(s.p, e, Words(code), ready);
    P.InvStep(s.p, Fetching(e, ready), Words(code), pulpObi);
  }

  /** On its stream, and what was seen is the walk from the last target. */
  predicate Walking(s: Sys, code: A.Code) { Fetched(s, code) && A.OnWalk(View(s), code) }

  lemma WalkingStep(s: Sys, e: Env, code: A.Code, pulpObi: bool)
    requires Fetched(s, code) && Allowed(s, e) && (e.branch.Some? || A.OnWalk(View(s), code))
    ensures Walking(Tick(s, e, code, pulpObi), code)
  {
    TickRefines(s, e, code, pulpObi);
    if e.branch.Some? { A.BranchStartsWalk(View(s), ViewEnv(s, e, code), code); }
    else { A.OnWalkStep(View(s), ViewEnv(s, e, code), code); }
  }

  function Stepper(code: A.Code, pulpObi: bool): (Sys, Env) -> Sys { (s: Sys, e: Env) => Tick(s, e, code, pulpObi) }

  /** From the bus to ID: for every code memory and every pattern of grants, answers,
      stalls and branches, from any cycle with a branch on, the instructions that entered
      ID since the last one are the beginning of the walk from its target. */
  lemma BusToWalk(s: Sys, first: Env, env: nat -> Env, code: A.Code, pulpObi: bool, n: nat)
    requires Fetched(s, code) && Allowed(s, first) && first.branch.Some?
    requires Kept(Tick(s, first, code, pulpObi), Stepper(code, pulpObi), (x: Sys, e: Env) => Allowed(x, e), env, n)
    ensures var t := Run(Tick(s, first, code, pulpObi), Stepper(code, pulpObi), env, n);
      Walking(t, code) && t.seen == A.Walk(code, t.target, |t.seen|)
  {
    var step := Stepper(code, pulpObi);
    var ok := (x: Sys, e: Env) => Allowed(x, e);
    WalkingStep(s, first, code, pulpObi);
    forall x, e | Walking(x, code) && ok(x, e) ensures Walking(step(x, e), code) {
      WalkingStep(x, e, code, pulpObi);
    }
    Invariant((x: Sys) => Walking(x, code), ok, Tick(s, first, code, pulpObi), step, env, n);
  }

  // ----------------------------------------------------------------- progress of the walk

  /** Fetching goes on, nothing is halted and no branch comes. */
  function Flowing(): (Sys, Env) -> bool {
    (s: Sys, e: Env) => Allowed(s, e) && e.req && e.branch == A.None && !e.haltIf
  }

  /** The bus neither grants nor answers although it owes it. */
  function BusIdles(code: A.Code, pulpObi: bool): (Sys, Env) -> bool {
    (s: Sys, e: Env) => P.BusIdles(s.p, Fetching(e, false), Words(code), pulpObi)
  }

  function IdStalls(): (Sys, Env) -> bool { (s: Sys, e: Env) => !e.idReady }

  /** Never more than busBound cycles in a row without a grant or an answer that is owed, and
      never more than idBound in a row with ID not ready. */
  function Both(code: A.Code, pulpObi: bool, busBound: nat, idBound: nat): Parties<Sys, Env> {
    Parties(BusIdles(code, pulpObi), busBound, IdStalls(), idBound)
  }

  /** Cycles until the next word is taken. */
  function TakeRank(s: Q.Sys, busBound: nat, idBound: nat, w1: nat, w2: nat): nat
    requires |s.granted| <= Q.DEPTH
  {
    if !Q.Steady(s) then Q.WordRank(s, busBound, w1) + idBound + 1
    else if w2 <= idBound then idBound - w2 else 0
  }

  /** At most. */
  function TakeSpan(busBound: nat, idBound: nat): nat { CyclesFor(Q.MOST_EVENTS, busBound) + idBound + 1 }

  lemma TakeRankBounded(s: Q.Sys, busBound: nat, idBound: nat, w1: nat, w2: nat)
    requires Q.Counted(s)
    ensures |s.granted| <= Q.DEPTH && TakeRank(s, busBound, idBound, w1, w2) <= TakeSpan(busBound, idBound)
  {
    Q.WordRankBounded(s, busBound, w1);
  }

  /** In a cycle in which no word is taken, although one would be if it were offered and ID
      ready, the next one comes closer. */
  lemma TakeStep(s: Q.Sys, e: Q.Env, code: Q.Code, pulpObi: bool, busBound: nat, idBound: nat, w1: nat, w2: nat,
                 idReady: bool)
    requires Q.Ordinary(s, e, code) && e.req && !e.ready && !(Q.Valid(s, e, code) && idReady)
    requires w1 <= busBound && w2 <= idBound
    requires (Q.BusIdles(s, e, code, pulpObi) ==> w1 < busBound) && (!idReady ==> w2 < idBound)
    ensures var t := Q.Tick(s, e, code, pulpObi);
      && Q.Counted(t) && |t.granted| <= Q.DEPTH && |s.granted| <= Q.DEPTH
      && TakeRank(t, busBound, idBound, NextWait(w1, Q.BusIdles(s, e, code, pulpObi)), NextWait(w2, !idReady))
         < TakeRank(s, busBound, idBound, w1, w2)
  {
    Q.WordStep(s, e, code, pulpObi, busBound, w1);
    if Q.Steady(s) { Q.SteadyOffers(s, e, code); }
  }

  lemma BufferTakeStep(p: P.Sys, e: P.Env, code: P.Code, pulpObi: bool, busBound: nat, idBound: nat, w1: nat, w2: nat,
                       idReady: bool)
    requires P.Inv(p, code) && Q.Allowed(P.View(p), e, code) && e.branch == A.None && e.jump == A.None
    requires e.req && !e.ready && !(P.Valid(p, e, code) && idReady)
    requires w1 <= busBound && w2 <= idBound
    requires (P.BusIdles(p, e, code, pulpObi) ==> w1 < busBound) && (!idReady ==> w2 < idBound)
    ensures var t := P.Tick(p, e, code, pulpObi);
      && |t.granted| <= Q.DEPTH && |p.granted| <= Q.DEPTH
      && TakeRank(P.View(t), busBound, idBound, NextWait(w1, P.BusIdles(p, e, code, pulpObi)), NextWait(w2, !idReady))
         < TakeRank(P.View(p), busBound, idBound, w1, w2)
  {
    P.OutputsAgree(p, e, code);
    P.TickRefines(p, e, code, pulpObi);
    TakeStep(P.View(p), e, code, pulpObi, busBound, idBound, w1, w2, idReady);
  }

  /** The aligner has to store a word before the next instruction is complete. */
  predicate StoresFirst(r: A.Regs, code: A.Code) { r.state == A.BranchMisaligned && A.IsLong(code(r.pc)) }

  /** Cycles until the next instruction enters ID: one word, or two. */
  function EntryRank(s: Sys, code: A.Code, busBound: nat, idBound: nat, w1: nat, w2: nat): nat
    requires |s.p.granted| <= Q.DEPTH
  {
    (if StoresFirst(s.regs, code) then TakeSpan(busBound, idBound) + 1 else 0)
    + TakeRank(P.View(s.p), busBound, idBound, w1, w2)
  }

  /** At most one less than this. */
  function EntrySpan(busBound: nat, idBound: nat): nat { 2 * TakeSpan(busBound, idBound) + 2 }

  lemma EntryRankBounded(s: Sys, code: A.Code, busBound: nat, idBound: nat, w1: nat, w2: nat)
    requires Fetched(s, code)
    ensures |s.p.granted| <= Q.DEPTH && EntryRank(s, code, busBound, idBound, w1, w2) < EntrySpan(busBound, idBound)
  {
    TakeRankBounded(P.View(s.p), busBound, idBound, w1, w2);
  }

  /** A word is offered and ID is ready. */
  predicate TakesWord(s: Sys, e: Env, code: A.Code) { Offers(s, e, code) && e.idReady }

  /** Then an instruction enters ID, or a first half is stored and one will. */
  lemma WordTaken(s: Sys, e: Env, code: A.Code, pulpObi: bool)
    requires Walking(s, code) && Flowing()(s, e) && TakesWord(s, e, code)
    ensures var t := Tick(s, e, code, pulpObi);
      if StoresFirst(s.regs, code) then |t.seen| == |s.seen| && !StoresFirst(t.regs, code)
      else |t.seen| == |s.seen| + 1
  {
    TickRefines(s, e, code, pulpObi);
    A.AcceptStep(View(s), ViewEnv(s, e, code), code);
  }

  /** Otherwise it comes closer. */
  lemma WordNotTaken(s: Sys, e: Env, code: A.Code, pulpObi: bool, busBound: nat, idBound: nat, w1: nat, w2: nat)
    requires Walking(s, code) && Flowing()(s, e) && !TakesWord(s, e, code)
    requires InTime(s, e, Both(code, pulpObi, busBound, idBound), w1, w2)
    ensures var t, p := Tick(s, e, code, pulpObi), Both(code, pulpObi, busBound, idBound);
      && t.seen == s.seen && t.regs == s.regs && |t.p.granted| <= Q.DEPTH && |s.p.granted| <= Q.DEPTH
      && EntryRank(t, code, busBound, idBound, NextWait(w1, p.idle1(s, e)), NextWait(w2, p.idle2(s, e)))
         < EntryRank(s, code, busBound, idBound, w1, w2)
  {
    var fetching := Fetching(e, false);
    TickRefines(s, e, code, pulpObi);
    A.StallStep(View(s), ViewEnv(s, e, code), code);
    BufferTakeStep(s.p, fetching, Words(code), pulpObi, busBound, idBound, w1, w2, e.idReady);
  }

  function OnItsWalk(code: A.Code, target: A.Pc): Sys -> bool { (s: Sys) => Walking(s, code) && s.target == target }

  function Entered(k: nat): Sys -> bool { (s: Sys) => |s.seen| >= k }

  /** Cycles until k instructions have entered ID. */
  function WalkRanks(k: nat, code: A.Code, busBound: nat, idBound: nat): (Sys, nat, nat) -> nat {
    (s: Sys, w1: nat, w2: nat) =>
      if |s.seen| >= k || |s.p.granted| > Q.DEPTH then 0
      else StageCycles(k - |s.seen|, EntrySpan(busBound, idBound), EntryRank(s, code, busBound, idBound, w1, w2))
  }

  /** An instruction enters ID, or it comes closer to entering. */
  predicate NearerEntry(s: Sys, t: Sys, code: A.Code, busBound: nat, idBound: nat, w1: nat, w2: nat, v1: nat, v2: nat) {
    || |t.seen| == |s.seen| + 1
    || (t.seen == s.seen && |t.p.granted| <= Q.DEPTH && |s.p.granted| <= Q.DEPTH
        && EntryRank(t, code, busBound, idBound, v1, v2) < EntryRank(s, code, busBound, idBound, w1, w2))
  }

  lemma WalkCycle(s: Sys, e: Env, code: A.Code, pulpObi: bool, busBound: nat, idBound: nat, w1: nat, w2: nat)
    requires Walking(s, code) && Flowing()(s, e)
    requires InTime(s, e, Both(code, pulpObi, busBound, idBound), w1, w2)
    ensures var t, p := Tick(s, e, code, pulpObi), Both(code, pulpObi, busBound, idBound);
      NearerEntry(s, t, code, busBound, idBound, w1, w2, NextWait(w1, p.idle1(s, e)), NextWait(w2, p.idle2(s, e)))
  {
    if TakesWord(s, e, code) {
      var t, p := Tick(s, e, code, pulpObi), Both(code, pulpObi, busBound, idBound);
      WalkingStep(s, e, code, pulpObi);
      WordTaken(s, e, code, pulpObi);
      TakeRankBounded(P.View(s.p), busBound, idBound, w1, w2);
      TakeRankBounded(P.View(t.p), busBound, idBound, NextWait(w1, p.idle1(s, e)), NextWait(w2, p.idle2(s, e)));
    } else {
      WordNotTaken(s, e, code, pulpObi, busBound, idBound, w1, w2);
    }
  }

  lemma WalkRankLower(s: Sys, t: Sys, k: nat, code: A.Code, busBound: nat, idBound: nat, w1: nat, w2: nat,
                      v1: nat, v2: nat)
    requires Fetched(s, code) && Fetched(t, code) && |t.seen| < k
    requires NearerEntry(s, t, code, busBound, idBound, w1, w2, v1, v2)
    ensures var ranks := WalkRanks(k, code, busBound, idBound); ranks(t, v1, v2) < ranks(s, w1, w2)
  {
    EntryRankBounded(s, code, busBound, idBound, w1, w2);
    EntryRankBounded(t, code, busBound, idBound, v1, v2);
    NextStage(k - |s.seen|, EntrySpan(busBound, idBound), EntryRank(s, code, busBound, idBound, w1, w2),
              EntryRank(t, code, busBound, idBound, v1, v2));
  }

  lemma SeenGrows(s: Sys, e: Env, code: A.Code, pulpObi: bool)
    requires e.branch == A.None
    ensures |Tick(s, e, code, pulpObi).seen| >= |s.seen|
  {
  }

  lemma WalkDescends(target: A.Pc, k: nat, code: A.Code, pulpObi: bool, busBound: nat, idBound: nat)
    ensures Descends(OnItsWalk(code, target), Entered(k), WalkRanks(k, code, busBound, idBound),
                     Stepper(code, pulpObi), Flowing(), Both(code, pulpObi, busBound, idBound))
  {
    var inv, step, p := OnItsWalk(code, target), Stepper(code, pulpObi), Both(code, pulpObi, busBound, idBound);
    var ranks := WalkRanks(k, code, busBound, idBound);
    forall s: Sys, e, w1: nat, w2: nat | inv(s) && Flowing()(s, e) && InTime(s, e, p, w1, w2)
      ensures inv(step(s, e)) && (Entered(k)(s) ==> Entered(k)(step(s, e)))
      ensures Entered(k)(step(s, e)) || RankAfter(ranks, step(s, e), s, e, p, w1, w2) < ranks(s, w1, w2)
    {
      WalkingStep(s, e, code, pulpObi);
      SeenGrows(s, e, code, pulpObi);
      if |step(s, e).seen| < k {
        WalkCycle(s, e, code, pulpObi, busBound, idBound, w1, w2);
        WalkRankLower(s, step(s, e), k, code, busBound, idBound, w1, w2,
                      NextWait(w1, p.idle1(s, e)), NextWait(w2, p.idle2(s, e)));
      }
    }
  }

  lemma WalkRankStart(s: Sys, code: A.Code, busBound: nat, idBound: nat, k: nat)
    requires Walking(s, code) && s.seen == [] && k > 0
    ensures WalkRanks(k, code, busBound, idBound)(s, 0, 0) < Spans(k, EntrySpan(busBound, idBound))
  {
    EntryRankBounded(s, code, busBound, idBound, 0, 0);
    NextStage(k, EntrySpan(busBound, idBound), EntryRank(s, code, busBound, idBound, 0, 0), 0);
  }

  /** From any state on the walk with nothing entered yet. */
  lemma WalkArrives(s: Sys, env: nat -> Env, code: A.Code, pulpObi: bool, busBound: nat, idBound: nat, k: nat, n: nat)
    requires Walking(s, code) && s.seen == [] && k > 0
    requires Kept(s, Stepper(code, pulpObi), Flowing(), env, n)
    requires BothPatient(s, Stepper(code, pulpObi), Both(code, pulpObi, busBound, idBound), env, n)
    requires n >= Spans(k, EntrySpan(busBound, idBound))
    ensures var t := Run(s, Stepper(code, pulpObi), env, n); OnItsWalk(code, s.target)(t) && Entered(k)(t)
  {
    WalkRankStart(s, code, busBound, idBound, k);
    WalkDescends(s.target, k, code, pulpObi, busBound, idBound);
    Arrival(OnItsWalk(code, s.target), Entered(k), WalkRanks(k, code, busBound, idBound), s, Stepper(code, pulpObi),
            Flowing(), Both(code, pulpObi, busBound, idBound), env, n);
  }

  /** And it gets there: from the cycle of a branch on, whatever was fetched ahead, is still
      to be answered or not even granted, the k-th instruction of the walk has entered ID
      after k spans, each of sixteen times the longest the bus may owe and twice the longest
      ID may not be ready. */
  lemma WalkProceeds(s: Sys, first: Env, env: nat -> Env, code: A.Code, pulpObi: bool, busBound: nat, idBound: nat,
                     k: nat, n: nat)
    requires Fetched(s, code) && Allowed(s, first) && first.branch.Some? && k > 0
    requires Kept(Tick(s, first, code, pulpObi), Stepper(code, pulpObi), Flowing(), env, n)
    requires BothPatient(Tick(s, first, code, pulpObi), Stepper(code, pulpObi),
                         Both(code, pulpObi, busBound, idBound), env, n)
    requires n >= Spans(k, EntrySpan(busBound, idBound))
    ensures var t := Run(Tick(s, first, code, pulpObi), Stepper(code, pulpObi), env, n);
      |t.seen| >= k && t.seen == A.Walk(code, first.branch.value, |t.seen|)
  {
    WalkingStep(s, first, code, pulpObi);
    WalkArrives(Tick(s, first, code, pulpObi), env, code, pulpObi, busBound, idBound, k, n);
  }

  // ------------------------------------------- prefetch buffer, aligner and loop logic

  datatype LoopEnv = LoopEnv(idReady: bool, gnt: bool, rvalid: bool)

  datatype LoopSys = LoopSys(ctrl: H.Ctrl, loops: H.Pair, idValid: bool, id: A.Insn, al: A.Regs, p: P.Sys,
                             retired: seq<A.Insn>)

  /** What the loop model sees of the prefetcher. */
  function LoopView(s: LoopSys): S.Sys {
    S.Sys(s.ctrl, s.loops, s.idValid, s.id, s.al, s.p.next, s.p.redirect, s.retired)
  }

  function LoopOut(s: LoopSys, act: L.Action): H.Out {
    H.Control(s.ctrl, s.loops, s.idValid, s.id.pc, L.FlowOf(act))
  }

  /** A branch of the controller, a loop jump, and the handshake. */
  function LoopFetching(s: LoopSys, e: LoopEnv, act: L.Action, ready: bool): P.Env {
    var o := LoopOut(s, act);
    Q.Env(true, if o.pcSet then A.Some(o.target.index) else A.None,
          if H.LoopJump(s.ctrl, o) then A.Some(o.target.index) else A.None, ready, e.gnt, e.rvalid)
  }

  predicate LoopOffers(s: LoopSys, e: LoopEnv, act: L.Action, code: A.Code) {
    P.Valid(s.p, LoopFetching(s, e, act, false), Words(code))
  }

  function LoopOffered(s: LoopSys, e: LoopEnv, act: L.Action, code: A.Code): A.Word {
    P.Offered(s.p, LoopFetching(s, e, act, false), Words(code))
  }

  function LoopViewEnv(s: LoopSys, e: LoopEnv, act: L.Action, code: A.Code): S.Env {
    S.Env(LoopOffers(s, e, act, code), e.idReady, LoopOffered(s, e, act, code))
  }

  function LoopAlignerIn(s: LoopSys, e: LoopEnv, act: L.Action, code: A.Code): A.In {
    var o := LoopOut(s, act);
    var valid := LoopOffers(s, e, act, code);
    A.In(valid, valid && e.idReady, LoopOffered(s, e, act, code), o.pcSet, o.target, H.LoopJump(s.ctrl, o), o.target)
  }

  /** The IF stage takes a word. */
  predicate LoopTakes(s: LoopSys, e: LoopEnv, act: L.Action, code: A.Code) {
    var i := LoopAlignerIn(s, e, act, code);
    i.ifValid && A.Combinational(s.al, i).ready
  }

  /** One cycle with this instruction in ID. */
  function LoopTick(s: LoopSys, e: LoopEnv, act: L.Action, code: A.Code, pulpObi: bool): LoopSys {
    var o := LoopOut(s, act);
    var i := LoopAlignerIn(s, e, act, code);
    var c := A.Combinational(s.al, i);
    var accept := i.ifValid && c.valid;
    var leaves := s.idValid && e.idReady;
    LoopSys(H.NextCtrl(o, e.idReady),
            H.NextLoops(s.loops, if leaves then L.WriteOf(act) else L.NoWrite(), [o.dec0, o.dec1], leaves),
            if accept then true else s.idValid && !e.idReady,
            if accept then A.Entering(s.al.pc, c.instr) else s.id,
            A.NextRegs(s.al, i),
            P.Tick(s.p, LoopFetching(s, e, act, LoopTakes(s, e, act, code)), Words(code), pulpObi),
            if leaves then s.retired + [s.id] else s.retired)
  }

  predicate LoopAllowed(s: LoopSys, e: LoopEnv) { e.rvalid ==> s.p.granted != [] }

  /** A jump back is announced. */
  predicate Jumps(s: S.Sys) { H.LoopJump(s.ctrl, H.Control(s.ctrl, s.loops, s.idValid, s.id.pc, H.Plain)) }

  /** It is the same whatever the instruction, and never comes with a branch. */
  lemma JumpsAre(s: S.Sys, act: L.Action)
    ensures var o := S.Outputs(s, act); H.LoopJump(s.ctrl, o) == Jumps(s) && (Jumps(s) ==> !o.pcSet && !o.target.upper)
  {
  }

  /** The prefetch buffer is on its stream, and a loop jump finds exactly one word ahead, so
      that there is never anything else to drop. */
  predicate Fed(s: LoopSys, code: A.Code) {
    && S.InLockStep(LoopView(s), code) && P.Inv(s.p, Words(code)) && Q.NothingToDrop(P.View(s.p))
    && (Jumps(LoopView(s)) ==> Q.JumpReady(P.View(s.p)) && Q.OneAhead(P.View(s.p)))
  }

  lemma LoopReadyMatters(s: LoopSys, e: LoopEnv, act: L.Action, code: A.Code, ready: bool)
    ensures P.Valid(s.p, LoopFetching(s, e, act, ready), Words(code)) == LoopOffers(s, e, act, code)
    ensures P.Offered(s.p, LoopFetching(s, e, act, ready), Words(code)) == LoopOffered(s, e, act, code)
  {
  }

  /** The prefetcher's obligations are met. */
  lemma LoopFetchAllowed(s: LoopSys, e: LoopEnv, act: L.Action, code: A.Code, ready: bool)
    requires Fed(s, code) && LoopAllowed(s, e)
    requires ready ==> LoopOffers(s, e, act, code)
    ensures Q.Allowed(P.View(s.p), LoopFetching(s, e, act, ready), Words(code))
  {
    JumpsAre(LoopView(s), act);
    LoopReadyMatters(s, e, act, code, ready);
    P.OutputsAgree(s.p, LoopFetching(s, e, act, ready), Words(code));
  }

  /** The aligner gets what the loop model gives it. */
  lemma LoopAlignerSees(s: LoopSys, e: LoopEnv, act: L.Action, code: A.Code)
    requires Fed(s, code) && LoopAllowed(s, e)
    ensures LoopAlignerIn(s, e, act, code)
         == S.AlignerIn(LoopView(s), LoopOut(s, act), LoopViewEnv(s, e, act, code), code)
  {
    if LoopOffers(s, e, act, code) {
      LoopFetchAllowed(s, e, act, code, true);
      LoopReadyMatters(s, e, act, code, true);
      P.OfferedIsNext(s.p, LoopFetching(s, e, act, true), Words(code));
    }
  }

  /** The whole moves as the loop model does. */
  lemma LoopTickRefines(s: LoopSys, e: LoopEnv, act: L.Action, code: A.Code, pulpObi: bool)
    requires Fed(s, code) && LoopAllowed(s, e)
    ensures LoopView(LoopTick(s, e, act, code, pulpObi))
         == S.TickWith(LoopView(s), LoopViewEnv(s, e, act, code), code, act)
  {
    LoopAlignerSees(s, e, act, code);
  }

  /** A whole word enters ID from a stream that is not about to be redirected. */
  predicate PlainEntry(s: S.Sys, e: S.Env, act: L.Action, code: A.Code) {
    e.avail && e.idReady && !S.Outputs(s, act).pcSet && !Jumps(s) && s.redirect == A.None && S.FillsWord(s.al.pc, code)
  }

  lemma PlainEntryTakes(s: LoopSys, e: LoopEnv, act: L.Action, code: A.Code)
    requires Fed(s, code) && LoopAllowed(s, e) && PlainEntry(LoopView(s), LoopViewEnv(s, e, act, code), act, code)
    ensures LoopTakes(s, e, act, code)
  {
    LoopAlignerSees(s, e, act, code);
  }

  lemma LoopTakesOffered(s: LoopSys, e: LoopEnv, act: L.Action, code: A.Code)
    ensures LoopTakes(s, e, act, code) ==> LoopOffers(s, e, act, code)
  {
  }

  /** If jumps are announced only in the cycle after such an entry, the prefetcher is always
      prepared. */
  lemma FedStep(s: LoopSys, e: LoopEnv, act: L.Action, code: A.Code, pulpObi: bool)
    requires Fed(s, code) && LoopAllowed(s, e)
    requires var t := LoopTick(s, e, act, code, pulpObi);
      && S.InLockStep(LoopView(t), code)
      && (Jumps(LoopView(t)) ==> PlainEntry(LoopView(s), LoopViewEnv(s, e, act, code), act, code))
    ensures Fed(LoopTick(s, e, act, code, pulpObi), code)
  {
    var t, taken := LoopTick(s, e, act, code, pulpObi), LoopTakes(s, e, act, code);
    var fetching := LoopFetching(s, e, act, taken);
    JumpsAre(LoopView(s), act);
    LoopTakesOffered(s, e, act, code);
    LoopFetchAllowed(s, e, act, code, taken);
    P.InvStep(s.p, fetching, Words(code), pulpObi);
    P.TickRefines(s.p, fetching, Words(code), pulpObi);
    Q.NothingToDropStep(P.View(s.p), fetching, Words(code), pulpObi);
    if Jumps(LoopView(t)) {
      PlainEntryTakes(s, e, act, code);
      Q.JumpReadyAfterTake(P.View(s.p), fetching, Words(code), pulpObi);
    }
  }

  /** With the loop logic around it the prefetch buffer never withdraws an offer: a word not
      taken is offered again in the next cycle, unless the controller branches. */
  lemma LoopOfferStays(s: LoopSys, e: LoopEnv, act: L.Action, next: LoopEnv, nextAct: L.Action, code: A.Code,
                       pulpObi: bool)
    requires Fed(s, code) && LoopAllowed(s, e) && LoopOffers(s, e, act, code) && !LoopTakes(s, e, act, code)
    requires !LoopOut(LoopTick(s, e, act, code, pulpObi), nextAct).pcSet
    ensures var t := LoopTick(s, e, act, code, pulpObi);
      LoopOffers(t, next, nextAct, code) && LoopOffered(t, next, nextAct, code) == LoopOffered(s, e, act, code)
  {
    var t, now := LoopTick(s, e, act, code, pulpObi), LoopFetching(s, e, act, false);
    var later := LoopFetching(t, next, nextAct, false);
    JumpsAre(LoopView(s), act);
    LoopFetchAllowed(s, e, act, code, false);
    P.OutputsAgree(s.p, now, Words(code));
    P.TickRefines(s.p, now, Words(code), pulpObi);
    P.OutputsAgree(t.p, later, Words(code));
    Q.OfferStays(P.View(s.p), now, later, Words(code), pulpObi);
  }

  // ------------------------------------------------------------- on the promised order

  /** A jump back is announced right after the instruction before the one that goes back has
      entered, and that came from an undisturbed stream. */
  lemma JustEntered(s: S.Sys, t: S.Sys, e: S.Env, a: L.At, act: L.Action, b: L.At, bAct: L.Action, code: A.Code)
    requires S.Inv(s, a, act, code) && L.Sound(a, act, code) && S.Moves(s, t, e, act, code)
    requires S.Inv(t, b, bAct, code) && L.Sound(b, bAct, code)
    requires if S.Leaves(s, e) then b == L.After(a, act, code) else b == a && bAct == act
    ensures Jumps(t) ==> PlainEntry(s, e, act, code)
  {
    if Jumps(t) {
      JumpsAre(t, bAct);
      JumpsAre(s, act);
      S.HeldControl(t, b, bAct, code);
      if s.idValid { S.HeldControl(s, a, act, code); } else { S.EmptyControl(s, act); }
    }
  }

  /** As far as the order goes, the stages follow it, fed by the prefetch buffer. */
  predicate LoopOnOrder(s: LoopSys, from: L.At, prog: L.Program, code: A.Code, m: nat) {
    S.OnOrder(LoopView(s), from, prog, code, m) && (|s.retired| < m ==> Fed(s, code))
  }

  function LoopStepper(code: A.Code, prog: L.Program, pulpObi: bool): (LoopSys, LoopEnv) -> LoopSys {
    (s: LoopSys, e: LoopEnv) => LoopTick(s, e, S.ActionOf(LoopView(s), prog), code, pulpObi)
  }

  function LoopObeys(): (LoopSys, LoopEnv) -> bool { (s: LoopSys, e: LoopEnv) => LoopAllowed(s, e) }

  /** Beyond the order. */
  lemma LoopTailStep(s: LoopSys, e: LoopEnv, act: L.Action, code: A.Code, pulpObi: bool, m: nat)
    requires |s.retired| >= m
    ensures var t := LoopTick(s, e, act, code, pulpObi);
      && |t.retired| >= m && t.retired[..m] == s.retired[..m]
      && (|t.retired| == m ==> |s.retired| == m && t.loops == s.loops)
  {
    var o := LoopOut(s, act);
    if !(s.idValid && e.idReady) { S.NothingWritten(s.loops, [o.dec0, o.dec1]); }
  }

  /** The next of the order, or the same while it stays. */
  lemma DueNext(s: S.Sys, e: S.Env, from: L.At, prog: L.Program, code: A.Code)
    requires S.Following(s, from, prog, code)
    requires L.Sound(S.Due(s, from, prog, code), S.DueAction(s, from, prog, code), code)
    ensures var a, act, t := S.Due(s, from, prog, code), S.DueAction(s, from, prog, code), S.Tick(s, e, code, prog);
      if S.Leaves(s, e) then S.Due(t, from, prog, code) == L.After(a, act, code)
      else S.Due(t, from, prog, code) == a && S.DueAction(t, from, prog, code) == act
  {
    if S.Leaves(s, e) { S.LeavingAdds(s, e, from, prog, code); }
  }

  lemma JumpsComeRight(s: S.Sys, e: S.Env, from: L.At, prog: L.Program, code: A.Code, m: nat)
    requires S.OnOrder(s, from, prog, code, m) && L.SoundFor(from, prog, code, 0, m)
    requires |s.retired| < m && |S.Tick(s, e, code, prog).retired| < m
    ensures S.InLockStep(S.Tick(s, e, code, prog), code)
    ensures Jumps(S.Tick(s, e, code, prog)) ==> PlainEntry(s, e, S.DueAction(s, from, prog, code), code)
  {
    var t := S.Tick(s, e, code, prog);
    S.DueSound(s, from, prog, code, m);
    S.OnOrderStep(s, e, from, prog, code, m);
    S.DueSound(t, from, prog, code, m);
    S.DueTick(s, e, from, prog, code);
    DueNext(s, e, from, prog, code);
    JustEntered(s, t, e, S.Due(s, from, prog, code), S.DueAction(s, from, prog, code),
                S.Due(t, from, prog, code), S.DueAction(t, from, prog, code), code);
  }

  /** While ID is empty it does not matter what its instruction would do. */
  lemma EmptyEntry(s: S.Sys, e: S.Env, x: L.Action, y: L.Action, code: A.Code)
    requires PlainEntry(s, e, x, code) && (s.idValid ==> x == y)
    ensures PlainEntry(s, e, y, code)
  {
  }

  lemma StaysFed(s: LoopSys, e: LoopEnv, from: L.At, prog: L.Program, code: A.Code, pulpObi: bool, m: nat)
    requires LoopOnOrder(s, from, prog, code, m) && LoopAllowed(s, e) && L.SoundFor(from, prog, code, 0, m)
    requires var t := LoopStepper(code, prog, pulpObi)(s, e); |s.retired| < m && |t.retired| < m
    ensures Fed(LoopStepper(code, prog, pulpObi)(s, e), code)
  {
    var v := LoopView(s);
    var act := S.ActionOf(v, prog);
    var env, t := LoopViewEnv(s, e, act, code), LoopTick(s, e, act, code, pulpObi);
    LoopTickRefines(s, e, act, code, pulpObi);
    JumpsComeRight(v, env, from, prog, code, m);
    if Jumps(LoopView(t)) { EmptyEntry(v, env, S.DueAction(v, from, prog, code), act, code); }
    FedStep(s, e, act, code, pulpObi);
  }

  lemma LoopOnOrderStep(s: LoopSys, e: LoopEnv, from: L.At, prog: L.Program, code: A.Code, pulpObi: bool, m: nat)
    requires LoopOnOrder(s, from, prog, code, m) && LoopAllowed(s, e) && L.SoundFor(from, prog, code, 0, m)
    ensures LoopOnOrder(LoopStepper(code, prog, pulpObi)(s, e), from, prog, code, m)
  {
    var v, t := LoopView(s), LoopStepper(code, prog, pulpObi)(s, e);
    var act := S.ActionOf(v, prog);
    if |s.retired| >= m {
      LoopTailStep(s, e, act, code, pulpObi, m);
    } else {
      LoopTickRefines(s, e, act, code, pulpObi);
      S.OnOrderStep(v, LoopViewEnv(s, e, act, code), from, prog, code, m);
      if |t.retired| < m { StaysFed(s, e, from, prog, code, pulpObi, m); }
    }
  }

  lemma LoopEntering(s: LoopSys, from: L.At, prog: L.Program, code: A.Code, m: nat)
    requires S.Entering(LoopView(s), from, code) && P.Inv(s.p, Words(code)) && L.SoundFor(from, prog, code, 0, m)
    ensures LoopOnOrder(s, from, prog, code, m)
  {
    S.EnteringOnOrder(LoopView(s), from, prog, code, m);
  }

  lemma LoopOnOrderRun(s: LoopSys, env: nat -> LoopEnv, from: L.At, prog: L.Program, code: A.Code, pulpObi: bool,
                       m: nat, n: nat)
    requires S.Entering(LoopView(s), from, code) && P.Inv(s.p, Words(code)) && L.SoundFor(from, prog, code, 0, m)
    requires Kept(s, LoopStepper(code, prog, pulpObi), LoopObeys(), env, n)
    ensures LoopOnOrder(Run(s, LoopStepper(code, prog, pulpObi), env, n), from, prog, code, m)
  {
    var step, ok := LoopStepper(code, prog, pulpObi), LoopObeys();
    LoopEntering(s, from, prog, code, m);
    forall x, e | LoopOnOrder(x, from, prog, code, m) && ok(x, e) ensures LoopOnOrder(step(x, e), from, prog, code, m) {
      LoopOnOrderStep(x, e, from, prog, code, pulpObi, m);
    }
    Invariant((x: LoopSys) => LoopOnOrder(x, from, prog, code, m), ok, s, step, env, n);
  }

  // --------------------------------------------------------------- where orders begin

  function Cleared(): H.Pair { H.Loops([0, 0], [0, 0], [0, 0]) }

  function BootedAligner(boot: A.Pc, junk: A.Word): A.Regs {
    A.NextRegs(A.Regs(A.Aligned32, 0, A.Pc(0, false), A.Pc(0, false), false, false),
               A.In(false, false, junk, true, boot, false, A.Pc(0, false)))
  }

  /** The registers after reset and the cycle in BOOT_SET, which branches to the boot address.
      In the next cycle, FIRST_FETCH, ID is empty, so that it is like one in DECODE. */
  function Booted(boot: A.Pc, gnt: bool, id: A.Insn, junk: A.Word, code: A.Code, pulpObi: bool): LoopSys {
    LoopSys(H.Ctrl(H.Decode, false, false), Cleared(), false, id, BootedAligner(boot, junk),
            P.Tick(P.Start(), Q.Env(true, A.Some(boot.index), A.None, false, gnt, false), Words(code), pulpObi), [])
  }

  lemma ResetOnStream(code: A.Code)
    ensures P.Inv(P.Start(), Words(code))
  {
  }

  lemma BootFetches(index: nat, gnt: bool, code: A.Code, pulpObi: bool)
    ensures var p := P.Tick(P.Start(), Q.Env(true, A.Some(index), A.None, false, gnt, false), Words(code), pulpObi);
      P.Inv(p, Words(code)) && p.next == index && p.redirect == A.None
  {
    ResetOnStream(code);
    P.InvStep(P.Start(), Q.Env(true, A.Some(index), A.None, false, gnt, false), Words(code), pulpObi);
  }

  lemma AlignerEnters(s: S.Sys, boot: A.Pc, junk: A.Word, code: A.Code)
    requires s.ctrl == H.Ctrl(H.Decode, false, false) && s.loops == Cleared() && !s.idValid && s.retired == []
    requires s.al == BootedAligner(boot, junk) && s.fetch == boot.index && s.redirect == A.None
    ensures S.Entering(s, L.At(boot, Cleared(), H.Decode), code)
  {
  }

  /** From reset the order begins at the boot address, of either half of a word. */
  lemma BootEnters(boot: A.Pc, gnt: bool, id: A.Insn, junk: A.Word, code: A.Code, pulpObi: bool)
    ensures var s := Booted(boot, gnt, id, junk, code, pulpObi);
      S.Entering(LoopView(s), L.At(boot, Cleared(), H.Decode), code) && P.Inv(s.p, Words(code))
  {
    BootFetches(boot.index, gnt, code, pulpObi);
    AlignerEnters(LoopView(Booted(boot, gnt, id, junk, code, pulpObi)), boot, junk, code);
  }

  /** A jump that leaves ID in DECODE in its first cycle begins one at its target, whatever
      was fetched ahead. */
  lemma JumpEnters(s: LoopSys, e: LoopEnv, target: A.Pc, code: A.Code, pulpObi: bool)
    requires Fed(s, code) && LoopAllowed(s, e) && s.idValid && e.idReady
    requires s.ctrl.fsm == H.Decode && !s.ctrl.jumpDone && L.Calm(s.loops, target)
    ensures var t := LoopTick(s, e, L.JumpsTo(target), code, pulpObi).(retired := []);
      S.Entering(LoopView(t), L.At(target, s.loops, H.Decode), code) && P.Inv(t.p, Words(code))
  {
    var act := L.JumpsTo(target);
    var taken := LoopTakes(s, e, act, code);
    LoopTickRefines(s, e, act, code, pulpObi);
    S.LockStep(LoopView(s), LoopViewEnv(s, e, act, code), code, act);
    S.NothingWritten(s.loops, [false, false]);
    LoopTakesOffered(s, e, act, code);
    LoopFetchAllowed(s, e, act, code, taken);
    P.InvStep(s.p, LoopFetching(s, e, act, taken), Words(code), pulpObi);
  }

  // ------------------------------------------------------------------- whole runs

  /** From the bus through the loop logic to retirement: under every pattern of grants,
      answers and stalls, as far as the order is sound, what leaves ID is the promised order,
      and the registers of both loops are those of that order. */
  lemma BusToOrder(s: LoopSys, env: nat -> LoopEnv, from: L.At, prog: L.Program, code: A.Code, pulpObi: bool,
                   m: nat, n: nat)
    requires S.Entering(LoopView(s), from, code) && P.Inv(s.p, Words(code)) && L.SoundFor(from, prog, code, 0, m)
    requires Kept(s, LoopStepper(code, prog, pulpObi), LoopObeys(), env, n)
    ensures var t := Run(s, LoopStepper(code, prog, pulpObi), env, n);
      S.Agrees(t.retired, t.loops, from, prog, code, m)
  {
    LoopOnOrderRun(s, env, from, prog, code, pulpObi, m, n);
    S.OnOrderAgrees(LoopView(Run(s, LoopStepper(code, prog, pulpObi), env, n)), from, prog, code, m);
  }

  // ---------------------------------------------------------------- progress of the order

  function LoopBusIdles(code: A.Code, prog: L.Program, pulpObi: bool): (LoopSys, LoopEnv) -> bool {
    (s: LoopSys, e: LoopEnv) =>
      P.BusIdles(s.p, LoopFetching(s, e, S.ActionOf(LoopView(s), prog), false), Words(code), pulpObi)
  }

  function LoopStalls(): (LoopSys, LoopEnv) -> bool { (s: LoopSys, e: LoopEnv) => !e.idReady }

  /** The same bounds for the bus and for ID. */
  function LoopBoth(code: A.Code, prog: L.Program, pulpObi: bool, busBound: nat, idBound: nat)
    : Parties<LoopSys, LoopEnv>
  {
    Parties(LoopBusIdles(code, prog, pulpObi), busBound, LoopStalls(), idBound)
  }

  /** Cycles until an instruction is in ID, ID being empty. */
  function FillRank(s: LoopSys, code: A.Code, busBound: nat, idBound: nat, w1: nat, w2: nat): nat
    requires |s.p.granted| <= Q.DEPTH
  {
    (if StoresFirst(s.al, code) then TakeSpan(busBound, idBound) + 1 else 0)
    + TakeRank(P.View(s.p), busBound, idBound, w1, w2)
  }

  /** Cycles until the next instruction leaves ID. */
  function RetireRank(s: LoopSys, code: A.Code, busBound: nat, idBound: nat, w1: nat, w2: nat): nat
    requires |s.p.granted| <= Q.DEPTH
  {
    if !s.idValid then FillRank(s, code, busBound, idBound, w1, w2) + idBound + 1
    else if w2 <= idBound then idBound - w2 else 0
  }

  /** At most one less than this. */
  function RetireSpan(busBound: nat, idBound: nat): nat { EntrySpan(busBound, idBound) + idBound + 1 }

  lemma RetireRankBounded(s: LoopSys, code: A.Code, busBound: nat, idBound: nat, w1: nat, w2: nat)
    requires P.Inv(s.p, Words(code))
    ensures |s.p.granted| <= Q.DEPTH && RetireRank(s, code, busBound, idBound, w1, w2) < RetireSpan(busBound, idBound)
  {
    TakeRankBounded(P.View(s.p), busBound, idBound, w1, w2);
  }

  /** An instruction in ID leaves as soon as ID is ready. */
  lemma HeldCycle(s: LoopSys, e: LoopEnv, act: L.Action, code: A.Code, pulpObi: bool)
    requires s.idValid
    ensures var t := LoopTick(s, e, act, code, pulpObi);
      if e.idReady then |t.retired| == |s.retired| + 1 else t.idValid && t.retired == s.retired
  {
  }

  /** With ID empty the controller neither branches nor announces anything. */
  lemma EmptyFetching(s: LoopSys, e: LoopEnv, act: L.Action, ready: bool)
    requires !s.idValid
    ensures LoopFetching(s, e, act, ready) == Q.Env(true, A.None, A.None, ready, e.gnt, e.rvalid)
    ensures !Jumps(LoopView(s)) && !S.Outputs(LoopView(s), act).pcSet
  {
  }

  /** A word offered with ID ready fills it, or a first half is stored and the next will. */
  lemma FillCycle(s: LoopSys, e: LoopEnv, act: L.Action, code: A.Code, pulpObi: bool)
    requires Fed(s, code) && LoopAllowed(s, e) && !s.idValid && LoopOffers(s, e, act, code) && e.idReady
    ensures var t := LoopTick(s, e, act, code, pulpObi);
      t.retired == s.retired && (if StoresFirst(s.al, code) then !t.idValid && !StoresFirst(t.al, code) else t.idValid)
  {
    EmptyFetching(s, e, act, false);
    LoopTickRefines(s, e, act, code, pulpObi);
    S.LockStep(LoopView(s), LoopViewEnv(s, e, act, code), code, act);
  }

  /** Without, it comes closer. */
  lemma EmptyCycle(s: LoopSys, e: LoopEnv, act: L.Action, code: A.Code, pulpObi: bool)
    requires Fed(s, code) && LoopAllowed(s, e) && !s.idValid && !(LoopOffers(s, e, act, code) && e.idReady)
    ensures var t := LoopTick(s, e, act, code, pulpObi);
      && t.retired == s.retired && !t.idValid && t.al.pc == s.al.pc && t.al.state == s.al.state
      && t.p == P.Tick(s.p, LoopFetching(s, e, act, false), Words(code), pulpObi)
  {
    EmptyFetching(s, e, act, false);
    LoopTickRefines(s, e, act, code, pulpObi);
    S.LockStep(LoopView(s), LoopViewEnv(s, e, act, code), code, act);
  }

  lemma EmptyComesCloser(s: LoopSys, e: LoopEnv, prog: L.Program, code: A.Code, pulpObi: bool, busBound: nat,
                         idBound: nat, w1: nat, w2: nat)
    requires Fed(s, code) && LoopAllowed(s, e) && !s.idValid
    requires !(LoopOffers(s, e, S.ActionOf(LoopView(s), prog), code) && e.idReady)
    requires InTime(s, e, LoopBoth(code, prog, pulpObi, busBound, idBound), w1, w2)
    ensures var t, p := LoopStepper(code, prog, pulpObi)(s, e), LoopBoth(code, prog, pulpObi, busBound, idBound);
      && t.retired == s.retired && !t.idValid && |t.p.granted| <= Q.DEPTH && |s.p.granted| <= Q.DEPTH
      && FillRank(t, code, busBound, idBound, NextWait(w1, p.idle1(s, e)), NextWait(w2, p.idle2(s, e)))
         < FillRank(s, code, busBound, idBound, w1, w2)
  {
    var act := S.ActionOf(LoopView(s), prog);
    var fetching := LoopFetching(s, e, act, false);
    EmptyCycle(s, e, act, code, pulpObi);
    EmptyFetching(s, e, act, false);
    LoopFetchAllowed(s, e, act, code, false);
    BufferTakeStep(s.p, fetching, Words(code), pulpObi, busBound, idBound, w1, w2, e.idReady);
  }

  /** An instruction leaves, or it comes closer to leaving. */
  predicate Nearer(s: LoopSys, t: LoopSys, code: A.Code, busBound: nat, idBound: nat,
                   w1: nat, w2: nat, v1: nat, v2: nat)
  {
    || |t.retired| == |s.retired| + 1
    || (t.retired == s.retired && |t.p.granted| <= Q.DEPTH && |s.p.granted| <= Q.DEPTH
        && RetireRank(t, code, busBound, idBound, v1, v2) < RetireRank(s, code, busBound, idBound, w1, w2))
  }

  lemma LoopCycleNearer(s: LoopSys, e: LoopEnv, prog: L.Program, code: A.Code, pulpObi: bool, busBound: nat,
                        idBound: nat, w1: nat, w2: nat)
    requires Fed(s, code) && LoopAllowed(s, e) && P.Inv(LoopStepper(code, prog, pulpObi)(s, e).p, Words(code))
    requires InTime(s, e, LoopBoth(code, prog, pulpObi, busBound, idBound), w1, w2)
    ensures var t, p := LoopStepper(code, prog, pulpObi)(s, e), LoopBoth(code, prog, pulpObi, busBound, idBound);
      Nearer(s, t, code, busBound, idBound, w1, w2, NextWait(w1, p.idle1(s, e)), NextWait(w2, p.idle2(s, e)))
  {
    var t, p := LoopStepper(code, prog, pulpObi)(s, e), LoopBoth(code, prog, pulpObi, busBound, idBound);
    var v1, v2 := NextWait(w1, p.idle1(s, e)), NextWait(w2, p.idle2(s, e));
    var act := S.ActionOf(LoopView(s), prog);
    RetireRankBounded(s, code, busBound, idBound, w1, w2);
    RetireRankBounded(t, code, busBound, idBound, v1, v2);
    if s.idValid {
      HeldCycle(s, e, act, code, pulpObi);
    } else if LoopOffers(s, e, act, code) && e.idReady {
      FillCycle(s, e, act, code, pulpObi);
      TakeRankBounded(P.View(t.p), busBound, idBound, v1, v2);
    } else {
      EmptyComesCloser(s, e, prog, code, pulpObi, busBound, idBound, w1, w2);
    }
  }

  /** On the order, and on the prefetch buffer's stream as far as the order goes. */
  function OnItsOrder(from: L.At, prog: L.Program, code: A.Code, m: nat): LoopSys -> bool {
    (s: LoopSys) => LoopOnOrder(s, from, prog, code, m)
  }

  function Retired(k: nat): LoopSys -> bool { (s: LoopSys) => |s.retired| >= k }

  /** Cycles until k instructions have left ID. */
  function OrderRanks(k: nat, code: A.Code, busBound: nat, idBound: nat): (LoopSys, nat, nat) -> nat {
    (s: LoopSys, w1: nat, w2: nat) =>
      if |s.retired| >= k || |s.p.granted| > Q.DEPTH then 0
      else StageCycles(k - |s.retired|, RetireSpan(busBound, idBound),
                       RetireRank(s, code, busBound, idBound, w1, w2))
  }

  lemma RankLower(s: LoopSys, t: LoopSys, k: nat, code: A.Code, busBound: nat, idBound: nat, w1: nat, w2: nat,
                  v1: nat, v2: nat)
    requires P.Inv(s.p, Words(code)) && P.Inv(t.p, Words(code)) && |t.retired| < k
    requires Nearer(s, t, code, busBound, idBound, w1, w2, v1, v2)
    ensures var ranks := OrderRanks(k, code, busBound, idBound); ranks(t, v1, v2) < ranks(s, w1, w2)
  {
    RetireRankBounded(s, code, busBound, idBound, w1, w2);
    RetireRankBounded(t, code, busBound, idBound, v1, v2);
    NextStage(k - |s.retired|, RetireSpan(busBound, idBound), RetireRank(s, code, busBound, idBound, w1, w2),
              RetireRank(t, code, busBound, idBound, v1, v2));
  }

  lemma RetiredGrows(s: LoopSys, e: LoopEnv, prog: L.Program, code: A.Code, pulpObi: bool)
    ensures |LoopStepper(code, prog, pulpObi)(s, e).retired| >= |s.retired|
  {
  }

  lemma OrderDescends(from: L.At, prog: L.Program, code: A.Code, m: nat, pulpObi: bool, busBound: nat, idBound: nat)
    requires L.SoundFor(from, prog, code, 0, m)
    ensures Descends(OnItsOrder(from, prog, code, m), Retired(m), OrderRanks(m, code, busBound, idBound),
                     LoopStepper(code, prog, pulpObi), LoopObeys(), LoopBoth(code, prog, pulpObi, busBound, idBound))
  {
    var inv, step := OnItsOrder(from, prog, code, m), LoopStepper(code, prog, pulpObi);
    var p, ranks := LoopBoth(code, prog, pulpObi, busBound, idBound), OrderRanks(m, code, busBound, idBound);
    forall s: LoopSys, e, w1: nat, w2: nat | inv(s) && LoopObeys()(s, e) && InTime(s, e, p, w1, w2)
      ensures inv(step(s, e)) && (Retired(m)(s) ==> Retired(m)(step(s, e)))
      ensures Retired(m)(step(s, e)) || RankAfter(ranks, step(s, e), s, e, p, w1, w2) < ranks(s, w1, w2)
    {
      LoopOnOrderStep(s, e, from, prog, code, pulpObi, m);
      RetiredGrows(s, e, prog, code, pulpObi);
      if |step(s, e).retired| < m {
        LoopCycleNearer(s, e, prog, code, pulpObi, busBound, idBound, w1, w2);
        RankLower(s, step(s, e), m, code, busBound, idBound, w1, w2,
                  NextWait(w1, p.idle1(s, e)), NextWait(w2, p.idle2(s, e)));
      }
    }
  }

  /** The bounds, and the promises of the bus. */
  predicate InTimeFor(s: LoopSys, env: nat -> LoopEnv, prog: L.Program, code: A.Code, pulpObi: bool, busBound: nat,
                      idBound: nat, n: nat)
  {
    && Kept(s, LoopStepper(code, prog, pulpObi), LoopObeys(), env, n)
    && BothPatient(s, LoopStepper(code, prog, pulpObi), LoopBoth(code, prog, pulpObi, busBound, idBound), env, n)
  }

  lemma OrderRankStart(s: LoopSys, code: A.Code, busBound: nat, idBound: nat, m: nat)
    requires P.Inv(s.p, Words(code)) && s.retired == [] && m > 0
    ensures OrderRanks(m, code, busBound, idBound)(s, 0, 0) < Spans(m, RetireSpan(busBound, idBound))
  {
    RetireRankBounded(s, code, busBound, idBound, 0, 0);
    NextStage(m, RetireSpan(busBound, idBound), RetireRank(s, code, busBound, idBound, 0, 0), 0);
  }

  /** And it gets there: as far as the order is sound, its m-th instruction has left ID after m
      spans, each of sixteen times the longest the bus may owe and three times the longest ID
      may not be ready, and all of them are the order's. */
  lemma OrderProceeds(s: LoopSys, env: nat -> LoopEnv, from: L.At, prog: L.Program, code: A.Code, pulpObi: bool,
                      busBound: nat, idBound: nat, m: nat, n: nat)
    requires S.Entering(LoopView(s), from, code) && P.Inv(s.p, Words(code)) && L.SoundFor(from, prog, code, 0, m)
    requires InTimeFor(s, env, prog, code, pulpObi, busBound, idBound, n)
    requires m > 0 && n >= Spans(m, RetireSpan(busBound, idBound))
    ensures var t := Run(s, LoopStepper(code, prog, pulpObi), env, n);
      |t.retired| >= m && S.Agrees(t.retired, t.loops, from, prog, code, m)
  {
    LoopEntering(s, from, prog, code, m);
    OrderRankStart(s, code, busBound, idBound, m);
    OrderDescends(from, prog, code, m, pulpObi, busBound, idBound);
    Arrival(OnItsOrder(from, prog, code, m), Retired(m), OrderRanks(m, code, busBound, idBound), s,
            LoopStepper(code, prog, pulpObi), LoopObeys(), LoopBoth(code, prog, pulpObi, busBound, idBound), env, n);
    BusToOrder(s, env, from, prog, code, pulpObi, m, n);
  }

  // ------------------------------------------------------------------ loops and nests

  /** One loop from the bus: whatever sets it up and in which order, with code of both
      lengths outside its body, what leaves ID is the code up to the body, the body exactly
      as often as the counter says, and the code from the end address. */
  lemma BusToLoops(s: LoopSys, env: nat -> LoopEnv, a: L.At, k: nat, prog: L.Program, code: A.Code, pulpObi: bool,
                   j: nat, n: nat)
    requires S.Entering(LoopView(s), a, code) && P.Inv(s.p, Words(code)) && O.Ready(a, k, prog, code, j)
    requires Kept(s, LoopStepper(code, prog, pulpObi), LoopObeys(), env, n)
    ensures var t := Run(s, LoopStepper(code, prog, pulpObi), env, n);
      O.Looped(t.retired, t.loops, a, O.Start(a, prog, code, j), k, code, j)
  {
    var t, b := Run(s, LoopStepper(code, prog, pulpObi), env, n), O.Start(a, prog, code, j);
    O.SoundEnough(a, b, k, prog, code, j, |t.retired|);
    BusToOrder(s, env, a, prog, code, pulpObi, |t.retired|, n);
    O.AgreeingIsLooped(t.retired, t.loops, a, b, k, prog, code, j, |t.retired|);
  }

  /** Two nested loops from the bus, whatever the outer body writes to the inner counter and
      when: what leaves ID is the promised order of the two. */
  lemma BusToNest(s: LoopSys, env: nat -> LoopEnv, n: N.Nest, a: L.At, prog: L.Program, code: A.Code, pulpObi: bool,
                  m: nat, k: nat)
    requires S.Entering(LoopView(s), a, code) && P.Inv(s.p, Words(code)) && N.InNest(n, a) && N.NestProgram(n, prog)
    requires O.Uncompressed(code, n.start1, n.end1) && N.EnteredWell(n, a, prog, code, m)
    requires Kept(s, LoopStepper(code, prog, pulpObi), LoopObeys(), env, k)
    ensures var t := Run(s, LoopStepper(code, prog, pulpObi), env, k); S.Agrees(t.retired, t.loops, a, prog, code, m)
  {
    N.NestIsSound(n, a, prog, code, m);
    BusToOrder(s, env, a, prog, code, pulpObi, m, k);
  }

  /** The documentation's example from the bus: the code that sets both loops up, `count`
      outer passes of m inner iterations each, and the code behind. */
  lemma BusToPasses(s: LoopSys, env: nat -> LoopEnv, n: N.Nest, r: nat, m: nat, count: nat, a: L.At, prog: L.Program,
                    code: A.Code, pulpObi: bool, j: nat, k: nat)
    requires S.Entering(LoopView(s), a, code) && P.Inv(s.p, Words(code)) && N.Ready(n, r, m, count, a, prog, code, j)
    requires Kept(s, LoopStepper(code, prog, pulpObi), LoopObeys(), env, k)
    ensures var t := Run(s, LoopStepper(code, prog, pulpObi), env, k);
      N.PassedOn(t.retired, t.loops, n, m, count, a.pc, code, j)
  {
    var t := Run(s, LoopStepper(code, prog, pulpObi), env, k);
    var enough := N.Enough(n, m, count, a.pc, code, j, |t.retired|);
    N.EnoughIsSound(n, r, m, count, a, prog, code, j, |t.retired|);
    BusToOrder(s, env, a, prog, code, pulpObi, enough, k);
    N.EnoughPasses(t.retired, t.loops, n, r, m, count, a, prog, code, j, enough);
  }

  /** The matrix addition from the bus, its first write at word 4, from cleared registers:
      six writes, ten passes of ten inner iterations, and the code behind. */
  lemma BusToMatrix(s: LoopSys, env: nat -> LoopEnv, code: A.Code, pulpObi: bool, k: nat)
    requires P.Inv(s.p, Words(code)) && O.Uncompressed(code, 4, 15)
    requires S.Entering(LoopView(s), U.MatrixStart(), code)
    requires Kept(s, LoopStepper(code, U.Matrix(), pulpObi), LoopObeys(), env, k)
    ensures var t := Run(s, LoopStepper(code, U.Matrix(), pulpObi), env, k);
      N.PassedOn(t.retired, t.loops, U.MatrixNest(), 10, 10, A.Pc(4, false), code, 6)
  {
    U.MatrixAddition(code);
    BusToPasses(s, env, U.MatrixNest(), 13, 10, 10, U.MatrixStart(), U.Matrix(), code, pulpObi, 6, k);
  }

  /** And from reset, booting at word 4: nothing is assumed but the code, that the nest and
      its setup are uncompressed, and a bus that answers what it granted. */
  lemma ResetToMatrix(gnt: bool, id: A.Insn, junk: A.Word, env: nat -> LoopEnv, code: A.Code, pulpObi: bool, k: nat)
    requires O.Uncompressed(code, 4, 15)
    requires Kept(Booted(A.Pc(4, false), gnt, id, junk, code, pulpObi), LoopStepper(code, U.Matrix(), pulpObi),
                  LoopObeys(), env, k)
    ensures var t := Run(Booted(A.Pc(4, false), gnt, id, junk, code, pulpObi), LoopStepper(code, U.Matrix(), pulpObi),
                         env, k);
      N.PassedOn(t.retired, t.loops, U.MatrixNest(), 10, 10, A.Pc(4, false), code, 6)
  {
    BootEnters(A.Pc(4, false), gnt, id, junk, code, pulpObi);
    BusToMatrix(Booted(A.Pc(4, false), gnt, id, junk, code, pulpObi), env, code, pulpObi, k);
  }

  // ------------------------------------------------------------------ they come to an end

  /** The loop is left: after as many spans as it has instructions, the code up to it
      included, the body has been executed as often as the counter said. */
  lemma LoopFinishes(s: LoopSys, env: nat -> LoopEnv, a: L.At, k: nat, prog: L.Program, code: A.Code, pulpObi: bool,
                     busBound: nat, idBound: nat, j: nat, n: nat)
    requires S.Entering(LoopView(s), a, code) && P.Inv(s.p, Words(code)) && O.Ready(a, k, prog, code, j)
    requires InTimeFor(s, env, prog, code, pulpObi, busBound, idBound, n)
    requires var whole := |O.Whole(a, O.Start(a, prog, code, j), k, code, j)|;
      whole > 0 && n >= Spans(whole, RetireSpan(busBound, idBound))
    ensures var t := Run(s, LoopStepper(code, prog, pulpObi), env, n);
      O.Whole(a, O.Start(a, prog, code, j), k, code, j) <= t.retired && t.loops.count[k] == 0
  {
    var b := O.Start(a, prog, code, j);
    var whole := |O.Whole(a, b, k, code, j)|;
    O.SoundEnough(a, b, k, prog, code, j, whole);
    OrderProceeds(s, env, a, prog, code, pulpObi, busBound, idBound, whole, n);
    BusToLoops(s, env, a, k, prog, code, pulpObi, j, n);
  }

  /** So is the nest. */
  lemma PassesFinish(s: LoopSys, env: nat -> LoopEnv, n: N.Nest, r: nat, m: nat, count: nat, a: L.At, prog: L.Program,
                     code: A.Code, pulpObi: bool, busBound: nat, idBound: nat, j: nat, k: nat)
    requires S.Entering(LoopView(s), a, code) && P.Inv(s.p, Words(code)) && N.Ready(n, r, m, count, a, prog, code, j)
    requires InTimeFor(s, env, prog, code, pulpObi, busBound, idBound, k)
    requires var whole := |N.Whole(n, m, count, a.pc, code, j)|;
      whole > 0 && k >= Spans(whole, RetireSpan(busBound, idBound))
    ensures N.Whole(n, m, count, a.pc, code, j) <= Run(s, LoopStepper(code, prog, pulpObi), env, k).retired
  {
    var whole := |N.Whole(n, m, count, a.pc, code, j)|;
    N.EnoughIsSound(n, r, m, count, a, prog, code, j, whole);
    OrderProceeds(s, env, a, prog, code, pulpObi, busBound, idBound, whole, k);
    BusToPasses(s, env, n, r, m, count, a, prog, code, pulpObi, j, k);
  }

  lemma MatrixLength(code: A.Code)
    ensures |N.Whole(U.MatrixNest(), 10, 10, A.Pc(4, false), code, 6)| == 326
  {
    N.PassesLength(code, U.MatrixNest(), 10, 10);
  }

  /** The matrix addition from reset is over after the spans of its 326 instructions. */
  lemma MatrixFinishes(gnt: bool, id: A.Insn, junk: A.Word, env: nat -> LoopEnv, code: A.Code, pulpObi: bool,
                       busBound: nat, idBound: nat, k: nat)
    requires O.Uncompressed(code, 4, 15)
    requires InTimeFor(Booted(A.Pc(4, false), gnt, id, junk, code, pulpObi), env, U.Matrix(), code, pulpObi,
                       busBound, idBound, k)
    requires k >= Spans(326, RetireSpan(busBound, idBound))
    ensures var t := Run(Booted(A.Pc(4, false), gnt, id, junk, code, pulpObi), LoopStepper(code, U.Matrix(), pulpObi),
                         env, k);
      N.Whole(U.MatrixNest(), 10, 10, A.Pc(4, false), code, 6) <= t.retired && |t.retired| >= 326
  {
    var s := Booted(A.Pc(4, false), gnt, id, junk, code, pulpObi);
    BootEnters(A.Pc(4, false), gnt, id, junk, code, pulpObi);
    U.MatrixAddition(code);
    MatrixLength(code);
    PassesFinish(s, env, U.MatrixNest(), 13, 10, 10, U.MatrixStart(), U.Matrix(), code, pulpObi, busBound, idBound,
                 6, k);
  }

  // ---------------------------------------------------------------------- at full speed

  /** The bus grants at once and answers in the next cycle, and nothing stalls ID. */
  function FullSpeed(): (LoopSys, LoopEnv) -> bool {
    (s: LoopSys, e: LoopEnv) => e.gnt && (e.rvalid <==> s.p.granted != []) && e.idReady
  }

  /** k instructions have left ID, the next is there, and a word is held or arriving. */
  function Speeding(from: L.At, prog: L.Program, code: A.Code, m: nat): (nat, LoopSys) -> bool {
    (k: nat, s: LoopSys) =>
      && LoopOnOrder(s, from, prog, code, m) && S.AtSpeed(LoopView(s), from, prog, code, m, k)
      && (k < m ==> Q.Fast(P.View(s.p)))
  }

  /** The bus side of such a cycle. */
  lemma FastFetching(s: LoopSys, e: LoopEnv, act: L.Action, code: A.Code, pulpObi: bool)
    requires Fed(s, code) && FullSpeed()(s, e) && Q.Fast(P.View(s.p)) && !LoopOut(s, act).pcSet
    ensures LoopOffers(s, e, act, code) && Q.Fast(P.View(LoopTick(s, e, act, code, pulpObi).p))
  {
    var taken := LoopTakes(s, e, act, code);
    var fetching := LoopFetching(s, e, act, taken);
    LoopTakesOffered(s, e, act, code);
    LoopFetchAllowed(s, e, act, code, taken);
    LoopReadyMatters(s, e, act, code, taken);
    P.OutputsAgree(s.p, fetching, Words(code));
    P.TickRefines(s.p, fetching, Words(code), pulpObi);
    Q.FastBusOffers(P.View(s.p), fetching, Words(code), pulpObi);
  }

  lemma SpeedingStep(s: LoopSys, e: LoopEnv, from: L.At, prog: L.Program, code: A.Code, pulpObi: bool, m: nat, k: nat)
    requires Speeding(from, prog, code, m)(k, s) && k < m && L.SoundFor(from, prog, code, 0, m) && S.JumpFree(prog)
    requires FullSpeed()(s, e) && !S.BranchesAt(from, prog, code, k)
    ensures Speeding(from, prog, code, m)(k + 1, LoopStepper(code, prog, pulpObi)(s, e))
  {
    var act := S.ActionOf(LoopView(s), prog);
    S.NoBranchAtSpeed(LoopView(s), from, prog, code, m, k);
    FastFetching(s, e, act, code, pulpObi);
    LoopTickRefines(s, e, act, code, pulpObi);
    S.SpeedStep(LoopView(s), LoopViewEnv(s, e, act, code), from, prog, code, m, k);
    LoopOnOrderStep(s, e, from, prog, code, pulpObi, m);
  }

  /** ID empty and a word arriving: the first cycle fills it. */
  lemma FilledAtSpeed(s: LoopSys, e: LoopEnv, from: L.At, prog: L.Program, code: A.Code, pulpObi: bool, m: nat)
    requires S.Entering(LoopView(s), from, code) && P.Inv(s.p, Words(code))
    requires L.SoundFor(from, prog, code, 0, m) && m > 0
    requires !s.idValid && s.al.state != A.BranchMisaligned && S.JumpFree(prog)
    requires Q.Fast(P.View(s.p)) && FullSpeed()(s, e)
    ensures Speeding(from, prog, code, m)(0, LoopStepper(code, prog, pulpObi)(s, e))
  {
    var act := S.ActionOf(LoopView(s), prog);
    LoopEntering(s, from, prog, code, m);
    LoopOnOrderStep(s, e, from, prog, code, pulpObi, m);
    EmptyFetching(s, e, act, false);
    FastFetching(s, e, act, code, pulpObi);
    FillCycle(s, e, act, code, pulpObi);
    LoopTickRefines(s, e, act, code, pulpObi);
    S.EmptyControl(LoopView(s), act);
    S.NeverStores(LoopView(s), LoopViewEnv(s, e, act, code), code, act);
  }

  /** The empty start, or one cycle after it at speed. */
  function SpeedsUp(s: LoopSys, from: L.At, prog: L.Program, code: A.Code, m: nat): (nat, LoopSys) -> bool {
    (k: nat, x: LoopSys) => if k == 0 then x == s else Speeding(from, prog, code, m)(k - 1, x)
  }

  /** Nothing in ID yet and the first word arriving. */
  predicate AboutToFill(s: LoopSys, from: L.At, code: A.Code) {
    && S.Entering(LoopView(s), from, code) && P.Inv(s.p, Words(code)) && Q.Fast(P.View(s.p))
    && !s.idValid && s.al.state != A.BranchMisaligned
  }

  lemma SpeedsUpStep(s: LoopSys, x: LoopSys, e: LoopEnv, from: L.At, prog: L.Program, code: A.Code, pulpObi: bool,
                     m: nat, k: nat)
    requires AboutToFill(s, from, code) && L.SoundFor(from, prog, code, 0, m) && m > 0 && S.JumpFree(prog)
    requires forall r: nat :: r < m ==> !S.BranchesAt(from, prog, code, r)
    requires SpeedsUp(s, from, prog, code, m)(k, x) && k <= m && FullSpeed()(x, e)
    ensures SpeedsUp(s, from, prog, code, m)(k + 1, LoopStepper(code, prog, pulpObi)(x, e))
  {
    if k == 0 { FilledAtSpeed(s, e, from, prog, code, pulpObi, m); }
    else { SpeedingStep(x, e, from, prog, code, pulpObi, m, k - 1); }
  }

  lemma SpeedMovesOn(s: LoopSys, env: nat -> LoopEnv, from: L.At, prog: L.Program, code: A.Code, pulpObi: bool, m: nat)
    requires AboutToFill(s, from, code) && L.SoundFor(from, prog, code, 0, m) && m > 0 && S.JumpFree(prog)
    requires forall k: nat :: k < m ==> !S.BranchesAt(from, prog, code, k)
    ensures MovesOn(SpeedsUp(s, from, prog, code, m), FullSpeed(), LoopStepper(code, prog, pulpObi), env, m + 1)
  {
    var inv, ok, step := SpeedsUp(s, from, prog, code, m), FullSpeed(), LoopStepper(code, prog, pulpObi);
    forall k: nat, x | k < m + 1 && inv(k, x) && ok(x, env(k)) ensures inv(k + 1, step(x, env(k))) {
      SpeedsUpStep(s, x, env(k), from, prog, code, pulpObi, m, k);
    }
  }

  lemma SpeedCounts(s: LoopSys, x: LoopSys, from: L.At, prog: L.Program, code: A.Code, m: nat, n: nat)
    requires SpeedsUp(s, from, prog, code, m)(n, x) && n > 0
    ensures |x.retired| == n - 1
  {
    assert Speeding(from, prog, code, m)(n - 1, x);
    assert S.AtSpeed(LoopView(x), from, prog, code, m, n - 1);
  }

  /** Zero stall cycles from the bus: as long as no instruction of the order branches, from
      the second cycle on one leaves ID in every cycle, the jumps back of both loops
      included. */
  lemma OneEachCycle(s: LoopSys, env: nat -> LoopEnv, from: L.At, prog: L.Program, code: A.Code, pulpObi: bool,
                     m: nat, n: nat)
    requires AboutToFill(s, from, code) && L.SoundFor(from, prog, code, 0, m) && m > 0 && S.JumpFree(prog)
    requires forall k: nat :: k < m ==> !S.BranchesAt(from, prog, code, k)
    requires Kept(s, LoopStepper(code, prog, pulpObi), FullSpeed(), env, n) && 0 < n <= m + 1
    ensures |Run(s, LoopStepper(code, prog, pulpObi), env, n).retired| == n - 1
  {
    var inv, step := SpeedsUp(s, from, prog, code, m), LoopStepper(code, prog, pulpObi);
    SpeedMovesOn(s, env, from, prog, code, pulpObi, m);
    IndexedWhile(inv, FullSpeed(), s, step, env, m + 1, n);
    SpeedCounts(s, Run(s, step, env, n), from, prog, code, m, n);
  }

  /** Both loops of the documentation's form, their setup included. */
  lemma PassesAtFullSpeed(s: LoopSys, env: nat -> LoopEnv, n: N.Nest, r: nat, m: nat, count: nat, a: L.At,
                          prog: L.Program, code: A.Code, pulpObi: bool, j: nat, k: nat)
    requires AboutToFill(s, a, code) && N.Ready(n, r, m, count, a, prog, code, j) && S.JumpFree(prog)
    requires Kept(s, LoopStepper(code, prog, pulpObi), FullSpeed(), env, k)
    requires 0 < k <= |N.Whole(n, m, count, a.pc, code, j)| + 1 && |N.Whole(n, m, count, a.pc, code, j)| > 0
    ensures |Run(s, LoopStepper(code, prog, pulpObi), env, k).retired| == k - 1
  {
    var whole := |N.Whole(n, m, count, a.pc, code, j)|;
    N.EnoughIsSound(n, r, m, count, a, prog, code, j, whole);
    forall q: nat | q < whole ensures !S.BranchesAt(a, prog, code, q) {
      N.WholeNeverBranches(n, r, m, count, a, prog, code, j, q);
    }
    OneEachCycle(s, env, a, prog, code, pulpObi, whole, k);
  }

  lemma BootsFast(boot: A.Pc, id: A.Insn, junk: A.Word, code: A.Code, pulpObi: bool)
    requires !boot.upper
    ensures AboutToFill(Booted(boot, true, id, junk, code, pulpObi), L.At(boot, Cleared(), H.Decode), code)
  {
    var e := Q.Env(true, A.Some(boot.index), A.None, false, true, false);
    BootEnters(boot, true, id, junk, code, pulpObi);
    P.TickRefines(P.Start(), e, Words(code), pulpObi);
  }

  /** The matrix addition from reset on such a bus: its 326 instructions leave ID in 326
      consecutive cycles. */
  lemma MatrixAtFullSpeed(id: A.Insn, junk: A.Word, env: nat -> LoopEnv, code: A.Code, pulpObi: bool, k: nat)
    requires O.Uncompressed(code, 4, 15) && 0 < k <= 327
    requires Kept(Booted(A.Pc(4, false), true, id, junk, code, pulpObi), LoopStepper(code, U.Matrix(), pulpObi),
                  FullSpeed(), env, k)
    ensures |Run(Booted(A.Pc(4, false), true, id, junk, code, pulpObi), LoopStepper(code, U.Matrix(), pulpObi),
                 env, k).retired| == k - 1
  {
    BootsFast(A.Pc(4, false), id, junk, code, pulpObi);
    U.MatrixAddition(code);
    MatrixLength(code);
    PassesAtFullSpeed(Booted(A.Pc(4, false), true, id, junk, code, pulpObi), env, U.MatrixNest(), 13, 10, 10,
                      U.MatrixStart(), U.Matrix(), code, pulpObi, 6, k);
  }
}
