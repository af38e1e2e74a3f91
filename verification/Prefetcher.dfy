/** The prefetch buffer: the prefetch controller, its FIFO of two words and the bus
    interface that keeps an address stable until it is granted. It delivers the stream of
    words that the aligner and the hardware loops rely on.

    All its addresses are word aligned, so they are word indices. */
module Prefetcher {
  import A = Aligner
  import F = Fifo
  import opened Runs

  const DEPTH: nat := 2

  // -------------------------------------------------------------- registers and inputs

  /** The controller: BRANCH_WAIT or IDLE, transactions accepted and unanswered, answers to
      drop, last address, and a drop count that starts after the next answer. */
  datatype Ctl = Ctl(branchWait: bool, cnt: nat, flushCnt: nat, addr: nat, flushAfterResp: bool, flushDelayed: nat)

  /** The bus interface: transparent, or holding an address that is not granted yet. */
  datatype Obi = Obi(registered: bool, addr: nat)

  /** One cycle: `ready` takes the word offered; `gnt` and `rvalid` come from the bus. */
  datatype In = In(req: bool, branch: A.Option<nat>, jump: A.Option<nat>, ready: bool, gnt: bool,
                      rvalid: bool, rdata: A.Word)

  // ------------------------------------------------------------- combinational signals

  // `held` is the FIFO's count.

  predicate Branching(i: In) { i.branch.Some? }

  predicate Jumping(i: In) { i.jump.Some? }

  predicate FetchValid(c: Ctl, held: nat, i: In) {
    (held > 0 || i.rvalid) && !(Branching(i) || c.flushCnt > 0)
  }

  predicate TransValid(c: Ctl, held: nat, i: In, pulpObi: bool) {
    var masked := if Branching(i) || Jumping(i) then 0 else held;
    i.req && masked + c.cnt < DEPTH && (pulpObi && c.cnt != 0 ==> i.rvalid)
  }

  function TransAddr(c: Ctl, i: In): nat {
    if i.branch.Some? then i.branch.value
    else if c.branchWait then c.addr
    else if i.jump.Some? then i.jump.value
    else A.NextWord(c.addr)
  }

  function FifoIn(c: Ctl, held: nat, i: In): F.In<A.Word> {
    var pop := held > 0 && i.ready;
    F.In(Branching(i) || (Jumping(i) && held > 0 && pop),
         Jumping(i) && held > 0 && !pop,
         i.rvalid && (held > 0 || !i.ready) && !(Branching(i) || c.flushCnt > 0),
         i.rdata, pop)
  }

  /** The end of a loop is still to be answered when the jump comes. */
  predicate WaitsForEnd(held: nat, i: In) { Jumping(i) && held == 0 && !i.rvalid }

  function NextFlushCnt(c: Ctl, held: nat, i: In): nat {
    if Branching(i) || (Jumping(i) && !(held == 0 && !i.rvalid)) then
      if i.rvalid && c.cnt > 0 then c.cnt - 1 else c.cnt
    else if c.flushAfterResp && i.rvalid then c.flushDelayed
    else if i.rvalid && c.flushCnt > 0 then c.flushCnt - 1
    else c.flushCnt
  }

  function NextCtl(c: Ctl, held: nat, i: In, accepted: bool): Ctl {
    Ctl(if c.branchWait then !accepted else (Branching(i) || Jumping(i)) && !accepted,
        if accepted == i.rvalid then c.cnt else if accepted then c.cnt + 1 else if c.cnt > 0 then c.cnt - 1 else 3,
        NextFlushCnt(c, held, i),
        if Branching(i) || Jumping(i) || accepted then TransAddr(c, i) else c.addr,
        if Branching(i) then false
        else if WaitsForEnd(held, i) then true
        else c.flushAfterResp && !i.rvalid,
        if Branching(i) then 0
        else if WaitsForEnd(held, i) then (if c.cnt > 0 then c.cnt - 1 else 3)
        else if c.flushAfterResp && i.rvalid then 0
        else c.flushDelayed)
  }

  /** The controller's registers and clocked processes. */
  class PrefetchController {
    var branchWait: bool
    var cntQ: nat
    var flushCntQ: nat
    var transAddrQ: nat
    var flushAfterResp: bool
    var flushCntDelayedQ: nat

    function Registers(): Ctl
      reads this
    {
      Ctl(branchWait, cntQ, flushCntQ, transAddrQ, flushAfterResp, flushCntDelayedQ)
    }

    constructor ()
      ensures Registers() == Ctl(false, 0, 0, 0, false, 0)
    {
      branchWait, cntQ, flushCntQ, transAddrQ := false, 0, 0, 0;
      flushAfterResp, flushCntDelayedQ := false, 0;
    }

    /** One rising clock edge; `accepted` is a transaction valid and ready. */
    method Clock(held: nat, i: In, accepted: bool)
      modifies this
      ensures Registers() == NextCtl(old(Registers()), held, i, accepted)
    {
      var c := Registers();
      flushCntQ := NextFlushCnt(c, held, i);
      if i.branch.Some? || i.jump.Some? || accepted { transAddrQ := TransAddr(c, i); }
      if !c.branchWait {
        if (i.branch.Some? || i.jump.Some?) && !accepted { branchWait := true; }
      } else if accepted {
        branchWait := false;
      }
      if accepted && !i.rvalid {
        cntQ := c.cnt + 1;
      } else if !accepted && i.rvalid {
        cntQ := if c.cnt > 0 then c.cnt - 1 else 3;
      }
      if i.branch.Some? {
        flushAfterResp, flushCntDelayedQ := false, 0;
      } else if WaitsForEnd(held, i) {
        flushAfterResp, flushCntDelayedQ := true, if c.cnt > 0 then c.cnt - 1 else 3;
      } else if c.flushAfterResp && i.rvalid {
        flushAfterResp, flushCntDelayedQ := false, 0;
      }
    }
  }

  // ------------------------------------------------------------- with FIFO and bus

  /** `granted` are the addresses the bus has accepted and not answered; `next` and
      `redirect` are the stream promised: the next word, and where it goes on after it. */
  datatype Sys = Sys(ctl: Ctl, fifo: seq<A.Word>, obi: Obi, granted: seq<nat>, next: nat, redirect: A.Option<nat>)

  datatype Env = Env(req: bool, branch: A.Option<nat>, jump: A.Option<nat>, ready: bool, gnt: bool, rvalid: bool)

  type Code = nat -> A.Word

  function Inputs(s: Sys, e: Env, code: Code): In {
    In(e.req, e.branch, e.jump, e.ready, e.gnt, e.rvalid, code(if s.granted != [] then s.granted[0] else 0))
  }

  /** The word offered. */
  function Offered(s: Sys, e: Env, code: Code): A.Word {
    if s.fifo == [] then Inputs(s, e, code).rdata else s.fifo[0]
  }

  predicate Valid(s: Sys, e: Env, code: Code) { FetchValid(s.ctl, |s.fifo|, Inputs(s, e, code)) }

  predicate Accepts(s: Sys, e: Env, code: Code, pulpObi: bool) {
    TransValid(s.ctl, |s.fifo|, Inputs(s, e, code), pulpObi) && !s.obi.registered
  }

  /** Accepted by the interface and not answered, oldest first. */
  function Waiting(s: Sys): seq<nat> { s.granted + (if s.obi.registered then [s.obi.addr] else []) }

  /** The promised stream: a branch starts it anew, a jump takes effect behind its next
      word. */
  function NextWanted(next: nat, redirect: A.Option<nat>, e: Env): nat {
    match e.branch
    case Some(t) => t
    case None =>
      if !e.ready then next
      else if e.jump.Some? then e.jump.value
      else if redirect.Some? then redirect.value
      else A.NextWord(next)
  }

  function NextRedirect(redirect: A.Option<nat>, e: Env): A.Option<nat> {
    if e.branch.Some? || e.ready then A.None else if e.jump.Some? then e.jump else redirect
  }

  function Tick(s: Sys, e: Env, code: Code, pulpObi: bool): Sys {
    var i := Inputs(s, e, code);
    var accepted := Accepts(s, e, code, pulpObi);
    var addr := TransAddr(s.ctl, i);
    var answered := if e.rvalid && s.granted != [] then s.granted[1..] else s.granted;
    Sys(NextCtl(s.ctl, |s.fifo|, i, accepted),
        F.NextQueue(s.fifo, FifoIn(s.ctl, |s.fifo|, i), DEPTH, false),
        if s.obi.registered then Obi(!e.gnt, s.obi.addr) else if accepted && !e.gnt then Obi(true, addr) else s.obi,
        if s.obi.registered && e.gnt then answered + [s.obi.addr]
        else if accepted && e.gnt then answered + [addr] else answered,
        NextWanted(s.next, s.redirect, e),
        NextRedirect(s.redirect, e))
  }

  /** Words from index k on. */
  function Plus(index: nat, k: nat): nat { if k == 0 then index else A.NextWord(Plus(index, k - 1)) }

  /** The k-th word of the promised stream. */
  function At(next: nat, redirect: A.Option<nat>, k: nat): nat {
    if k == 0 || redirect == A.None then Plus(next, k) else Plus(redirect.value, k - 1)
  }

  /** The oldest, and those behind k more. */
  function HeadAndBehind(w: seq<nat>, k: nat): seq<nat>
    requires 1 + k <= |w|
  {
    [w[0]] + w[1 + k..]
  }

  /** The unanswered transactions whose answers are wanted. */
  function Wanted(s: Sys): seq<nat>
    requires if s.ctl.flushAfterResp then 1 + s.ctl.flushDelayed <= |Waiting(s)| else s.ctl.flushCnt <= |Waiting(s)|
  {
    if s.ctl.flushAfterResp then HeadAndBehind(Waiting(s), s.ctl.flushDelayed) else Waiting(s)[s.ctl.flushCnt..]
  }

  /** The address of the next transaction. */
  function Coming(c: Ctl): nat { if c.branchWait then c.addr else A.NextWord(c.addr) }

  // ---------------------------------------------------------------- the invariant

  /** The counters fit what is unanswered. */
  predicate Counted(s: Sys) {
    && s.ctl.cnt == |Waiting(s)| <= DEPTH
    && (if s.ctl.flushAfterResp then
          1 + s.ctl.flushDelayed <= s.ctl.cnt && s.ctl.flushCnt == 0 && s.fifo == [] && s.redirect.Some?
        else s.ctl.flushCnt <= s.ctl.cnt)
  }

  /** The words held, the answers wanted and the coming address follow the stream. */
  predicate Follows(fifo: seq<A.Word>, w: seq<nat>, coming: nat, next: nat, redirect: A.Option<nat>, code: Code) {
    && (forall k :: 0 <= k < |fifo| ==> fifo[k] == code(At(next, redirect, k)))
    && (forall k :: 0 <= k < |w| ==> w[k] == At(next, redirect, |fifo| + k))
    && coming == At(next, redirect, |fifo| + |w|)
  }

  /** FIFO, wanted answers and the next transaction are the promised stream. */
  predicate OnStream(s: Sys, code: Code)
    requires Counted(s)
  {
    var n := |s.fifo| + |Wanted(s)|;
    && Follows(s.fifo, Wanted(s), Coming(s.ctl), s.next, s.redirect, code)
    && n <= DEPTH
    && (s.redirect.Some? ==> n >= 1)
    && (s.ctl.branchWait ==> n == if s.redirect.Some? then 1 else 0)
  }

  predicate Inv(s: Sys, code: Code) { Counted(s) && OnStream(s, code) }

  /** A loop jump finds the next word fetched or on its way, and nothing else pending. */
  predicate JumpReady(s: Sys)
    requires Counted(s)
  {
    && s.redirect == A.None && s.ctl.flushCnt == 0 && !s.ctl.flushAfterResp && !s.ctl.branchWait
    && |s.fifo| + |Wanted(s)| >= 1
  }

  /** The bus answers what it granted; a word is taken when one is offered; loop jumps come
      when they may. */
  predicate Allowed(s: Sys, e: Env, code: Code)
    requires Counted(s)
  {
    && (e.rvalid ==> s.granted != [])
    && (e.ready ==> Valid(s, e, code))
    && (e.jump.Some? && e.branch == A.None ==> JumpReady(s))
  }

  /** Whenever a word is offered it is the stream's next. */
  lemma OfferedIsNext(s: Sys, e: Env, code: Code)
    requires Inv(s, code) && Allowed(s, e, code) && Valid(s, e, code)
    ensures Offered(s, e, code) == code(s.next)
  {
    if s.fifo == [] {
      assert Waiting(s)[0] == s.granted[0];
      assert Wanted(s)[0] == s.granted[0];
    }
  }

  lemma WaitingNext(s: Sys, e: Env, code: Code, pulpObi: bool)
    requires Counted(s) && (e.rvalid ==> s.granted != [])
    ensures Waiting(Tick(s, e, code, pulpObi))
         == (if e.rvalid then Waiting(s)[1..] else Waiting(s))
            + (if Accepts(s, e, code, pulpObi) then [TransAddr(s.ctl, Inputs(s, e, code))] else [])
  {
  }

  lemma CountedStep(s: Sys, e: Env, code: Code, pulpObi: bool)
    requires Inv(s, code) && Allowed(s, e, code)
    ensures Counted(Tick(s, e, code, pulpObi))
  {
    WaitingNext(s, e, code, pulpObi);
  }

  /** The transaction accepted in this cycle, if any. */
  function New(s: Sys, e: Env, code: Code, pulpObi: bool): seq<nat> {
    if Accepts(s, e, code, pulpObi) then [TransAddr(s.ctl, Inputs(s, e, code))] else []
  }

  /** A fresh stream: everything before is dropped, and the first transaction is either
      accepted or waits. */
  predicate Restarted(t: Sys, address: nat, accepted: bool)
    requires Counted(t)
  {
    && Wanted(t) == (if accepted then [address] else [])
    && t.ctl.addr == address && t.ctl.branchWait == !accepted
  }

  lemma BranchStep(s: Sys, e: Env, code: Code, pulpObi: bool)
    requires Inv(s, code) && Allowed(s, e, code) && e.branch.Some?
    ensures Counted(Tick(s, e, code, pulpObi))
    ensures var t := Tick(s, e, code, pulpObi);
      && t.fifo == [] && t.next == e.branch.value && t.redirect == A.None
      && Restarted(t, e.branch.value, Accepts(s, e, code, pulpObi))
  {
    CountedStep(s, e, code, pulpObi);
    WaitingNext(s, e, code, pulpObi);
  }

  lemma JumpStep(s: Sys, e: Env, code: Code, pulpObi: bool)
    requires Inv(s, code) && Allowed(s, e, code) && e.branch == A.None && e.jump.Some?
    requires s.fifo != [] || e.rvalid
    ensures Counted(Tick(s, e, code, pulpObi))
    ensures var t := Tick(s, e, code, pulpObi);
      && Restarted(t, e.jump.value, Accepts(s, e, code, pulpObi))
      && (if e.ready then t.fifo == [] && t.next == e.jump.value && t.redirect == A.None
          else t.fifo == [Offered(s, e, code)] && t.next == s.next && t.redirect == e.jump)
  {
    CountedStep(s, e, code, pulpObi);
    WaitingNext(s, e, code, pulpObi);
  }

  lemma JumpWaitStep(s: Sys, e: Env, code: Code, pulpObi: bool)
    requires Inv(s, code) && Allowed(s, e, code) && e.branch == A.None && e.jump.Some?
    requires s.fifo == [] && !e.rvalid
    ensures Counted(Tick(s, e, code, pulpObi))
    ensures var t := Tick(s, e, code, pulpObi);
      && t.fifo == [] && t.next == s.next && t.redirect == e.jump
      && Wanted(t) == [Wanted(s)[0]] + New(s, e, code, pulpObi)
      && t.ctl.addr == e.jump.value && t.ctl.branchWait == !Accepts(s, e, code, pulpObi)
  {
    CountedStep(s, e, code, pulpObi);
    WaitingNext(s, e, code, pulpObi);
  }

  /** The FIFO after an ordinary cycle. */
  function Filled(s: Sys, e: Env, code: Code): seq<A.Word> {
    var arrived := if e.rvalid && (s.ctl.flushAfterResp || s.ctl.flushCnt == 0) then [Inputs(s, e, code).rdata] else [];
    if e.ready && s.fifo + arrived != [] then (s.fifo + arrived)[1..] else s.fifo + arrived
  }

  /** The wanted answers after an ordinary cycle. */
  function Remaining(s: Sys, e: Env): seq<nat>
    requires Counted(s)
  {
    if e.rvalid && (s.ctl.flushAfterResp || s.ctl.flushCnt == 0) && Wanted(s) != [] then Wanted(s)[1..] else Wanted(s)
  }

  predicate Ordinary(s: Sys, e: Env, code: Code) {
    Inv(s, code) && Allowed(s, e, code) && e.branch == A.None && e.jump == A.None
  }

  lemma OrdinaryFifo(s: Sys, e: Env, code: Code, pulpObi: bool)
    requires Ordinary(s, e, code)
    ensures Tick(s, e, code, pulpObi).fifo == Filled(s, e, code)
  {
  }

  /** Dropping and appending at either end. */
  lemma AppendBehind(w: seq<nat>, x: seq<nat>, k: nat)
    requires k <= |w|
    ensures (w + x)[k..] == w[k..] + x
  {
  }

  lemma HeadAnswered(w: seq<nat>, x: seq<nat>, k: nat)
    requires 1 + k <= |w|
    ensures (w[1..] + x)[k..] == HeadAndBehind(w, k)[1..] + x
    ensures HeadAndBehind(w + x, k) == HeadAndBehind(w, k) + x
  {
    AppendBehind(w, x, 1 + k);
    AppendBehind(w[1..], x, k);
  }

  lemma FrontDropped(w: seq<nat>, x: seq<nat>, k: nat)
    requires 0 < k <= |w|
    ensures (w[1..] + x)[k - 1..] == w[k..] + x
  {
    AppendBehind(w[1..], x, k - 1);
  }

  lemma OrdinaryFlush(s: Sys, e: Env, code: Code, pulpObi: bool)
    requires Ordinary(s, e, code)
    ensures var c, d := s.ctl, Tick(s, e, code, pulpObi).ctl;
      && d.flushAfterResp == (c.flushAfterResp && !e.rvalid)
      && (d.flushAfterResp ==> d.flushDelayed == c.flushDelayed)
      && (!d.flushAfterResp ==> d.flushCnt == if c.flushAfterResp then c.flushDelayed
                                              else if e.rvalid && c.flushCnt > 0 then c.flushCnt - 1 else c.flushCnt)
  {
  }

  /** The wanted part of the unanswered transactions after some leave and x joins. */
  lemma WantedAfter(s: Sys, t: Sys, x: seq<nat>, rvalid: bool)
    requires Counted(s) && Counted(t) && (rvalid ==> Waiting(s) != [])
    requires Waiting(t) == (if rvalid then Waiting(s)[1..] else Waiting(s)) + x
    requires t.ctl.flushAfterResp == (s.ctl.flushAfterResp && !rvalid)
    requires t.ctl.flushAfterResp ==> t.ctl.flushDelayed == s.ctl.flushDelayed
    requires !t.ctl.flushAfterResp ==> t.ctl.flushCnt == if s.ctl.flushAfterResp then s.ctl.flushDelayed
               else if rvalid && s.ctl.flushCnt > 0 then s.ctl.flushCnt - 1 else s.ctl.flushCnt
    ensures Wanted(t)
         == (if rvalid && (s.ctl.flushAfterResp || s.ctl.flushCnt == 0) then Wanted(s)[1..] else Wanted(s)) + x
  {
    var w := Waiting(s);
    if s.ctl.flushAfterResp {
      HeadAnswered(w, x, s.ctl.flushDelayed);
    } else if !rvalid {
      AppendBehind(w, x, s.ctl.flushCnt);
    } else if s.ctl.flushCnt > 0 {
      FrontDropped(w, x, s.ctl.flushCnt);
    }
  }

  lemma OrdinaryWanted(s: Sys, e: Env, code: Code, pulpObi: bool)
    requires Ordinary(s, e, code)
    ensures Counted(Tick(s, e, code, pulpObi))
    ensures Wanted(Tick(s, e, code, pulpObi)) == Remaining(s, e) + New(s, e, code, pulpObi)
  {
    CountedStep(s, e, code, pulpObi);
    WaitingNext(s, e, code, pulpObi);
    OrdinaryFlush(s, e, code, pulpObi);
    WantedAfter(s, Tick(s, e, code, pulpObi), New(s, e, code, pulpObi), e.rvalid);
  }

  lemma OrdinaryAddress(s: Sys, e: Env, code: Code, pulpObi: bool)
    requires Ordinary(s, e, code)
    ensures var t, accepted := Tick(s, e, code, pulpObi), Accepts(s, e, code, pulpObi);
      && (if accepted then t.ctl.addr == Coming(s.ctl) && !t.ctl.branchWait
          else t.ctl.addr == s.ctl.addr && t.ctl.branchWait == s.ctl.branchWait)
      && (accepted ==> |s.fifo| + |Wanted(s)| < DEPTH)
      && New(s, e, code, pulpObi) == (if accepted then [Coming(s.ctl)] else [])
  {
  }

  // ------------------------------------------------------------ each cycle keeps it

  lemma {:induction false} PlusShift(x: nat, k: nat)
    ensures Plus(A.NextWord(x), k) == Plus(x, k + 1)
  {
    if k > 0 { PlusShift(x, k - 1); }
  }

  /** Where the stream goes on once its next word is taken. */
  function Following(next: nat, redirect: A.Option<nat>): nat {
    if redirect.Some? then redirect.value else A.NextWord(next)
  }

  lemma StreamShift(next: nat, redirect: A.Option<nat>, k: nat)
    ensures At(Following(next, redirect), A.None, k) == At(next, redirect, k + 1)
  {
    if redirect == A.None { PlusShift(next, k); }
  }

  lemma RestartedOnStream(t: Sys, address: nat, accepted: bool, code: Code)
    requires Counted(t) && Restarted(t, address, accepted)
    requires (t.fifo == [] && t.next == address && t.redirect == A.None)
          || (t.fifo == [code(t.next)] && t.redirect == A.Some(address))
    ensures OnStream(t, code)
  {
    assert Plus(address, 0) == address && Plus(address, 1) == A.NextWord(Plus(address, 0));
  }

  lemma JumpWaitOnStream(t: Sys, address: nat, accepted: bool, code: Code)
    requires Counted(t) && t.fifo == [] && t.redirect == A.Some(address)
    requires Wanted(t) == [t.next] + (if accepted then [address] else [])
    requires t.ctl.addr == address && t.ctl.branchWait == !accepted
    ensures OnStream(t, code)
  {
    assert Plus(address, 0) == address && Plus(address, 1) == A.NextWord(Plus(address, 0));
  }

  /** Words arrived, and one taken. */
  predicate Moved(s: Sys, t: Sys, arrived: bool, taken: bool, accepted: bool, code: Code)
    requires Counted(s) && Counted(t)
  {
    && (arrived ==> Wanted(s) != []) && (taken ==> s.fifo != [] || arrived)
    && (accepted ==> |s.fifo| + |Wanted(s)| < DEPTH)
    && (var all := s.fifo + (if arrived then [code(Wanted(s)[0])] else []);
        t.fifo == if taken then all[1..] else all)
    && Wanted(t) == (if arrived then Wanted(s)[1..] else Wanted(s)) + (if accepted then [Coming(s.ctl)] else [])
    && (if accepted then t.ctl.addr == Coming(s.ctl) && !t.ctl.branchWait
        else t.ctl.addr == s.ctl.addr && t.ctl.branchWait == s.ctl.branchWait)
    && (if taken then t.next == Following(s.next, s.redirect) && t.redirect == A.None
        else t.next == s.next && t.redirect == s.redirect)
  }

  lemma ArriveFollows(fifo: seq<A.Word>, w: seq<nat>, coming: nat, next: nat, redirect: A.Option<nat>, code: Code)
    requires Follows(fifo, w, coming, next, redirect, code) && w != []
    ensures Follows(fifo + [code(w[0])], w[1..], coming, next, redirect, code)
  {
    assert w[0] == At(next, redirect, |fifo| + 0);
  }

  lemma AcceptFollows(fifo: seq<A.Word>, w: seq<nat>, coming: nat, next: nat, redirect: A.Option<nat>, code: Code)
    requires Follows(fifo, w, coming, next, redirect, code) && (redirect.Some? ==> |fifo| + |w| >= 1)
    ensures Follows(fifo, w + [coming], A.NextWord(coming), next, redirect, code)
  {
  }

  lemma TakeFollows(fifo: seq<A.Word>, w: seq<nat>, coming: nat, next: nat, redirect: A.Option<nat>, code: Code)
    requires Follows(fifo, w, coming, next, redirect, code) && fifo != []
    ensures Follows(fifo[1..], w, coming, Following(next, redirect), A.None, code)
  {
    var following := Following(next, redirect);
    forall k | 0 <= k < |fifo| - 1 ensures fifo[1..][k] == code(At(following, A.None, k)) {
      StreamShift(next, redirect, k);
    }
    forall k | 0 <= k < |w| ensures w[k] == At(following, A.None, |fifo[1..]| + k) {
      StreamShift(next, redirect, |fifo| - 1 + k);
    }
    StreamShift(next, redirect, |fifo| - 1 + |w|);
  }

  /** The three together, on values. */
  lemma AllFollow(fifo: seq<A.Word>, w: seq<nat>, coming: nat, next: nat, redirect: A.Option<nat>, code: Code,
                  arrived: bool, taken: bool, accepted: bool)
    requires Follows(fifo, w, coming, next, redirect, code) && (redirect.Some? ==> |fifo| + |w| >= 1)
    requires (arrived ==> w != []) && (taken ==> fifo != [] || arrived)
    ensures var all := fifo + (if arrived then [code(w[0])] else []);
      Follows(if taken then all[1..] else all,
              (if arrived then w[1..] else w) + (if accepted then [coming] else []),
              if accepted then A.NextWord(coming) else coming,
              if taken then Following(next, redirect) else next,
              if taken then A.None else redirect, code)
  {
    var all := fifo + (if arrived then [code(w[0])] else []);
    var v := if arrived then w[1..] else w;
    if arrived { ArriveFollows(fifo, w, coming, next, redirect, code); }
    assert Follows(all, v, coming, next, redirect, code);
    var v1, coming1 := v + (if accepted then [coming] else []), if accepted then A.NextWord(coming) else coming;
    if accepted { AcceptFollows(all, v, coming, next, redirect, code); }
    assert Follows(all, v1, coming1, next, redirect, code);
    if taken { TakeFollows(all, v1, coming1, next, redirect, code); }
  }

  lemma MovedFollows(s: Sys, t: Sys, arrived: bool, taken: bool, accepted: bool, code: Code)
    requires Inv(s, code) && Counted(t) && Moved(s, t, arrived, taken, accepted, code)
    ensures Follows(t.fifo, Wanted(t), Coming(t.ctl), t.next, t.redirect, code)
  {
    AllFollow(s.fifo, Wanted(s), Coming(s.ctl), s.next, s.redirect, code, arrived, taken, accepted);
  }

  lemma MovedOnStream(s: Sys, t: Sys, arrived: bool, taken: bool, accepted: bool, code: Code)
    requires Inv(s, code) && Counted(t) && Moved(s, t, arrived, taken, accepted, code)
    ensures OnStream(t, code)
  {
    MovedFollows(s, t, arrived, taken, accepted, code);
    var n := |s.fifo| + |Wanted(s)|;
    assert |t.fifo| + |Wanted(t)| == n + (if accepted then 1 else 0) - (if taken then 1 else 0);
  }

  lemma OrdinaryStream(s: Sys, e: Env, code: Code, pulpObi: bool)
    requires e.branch == A.None && e.jump == A.None
    ensures var t := Tick(s, e, code, pulpObi);
      if e.ready then t.next == Following(s.next, s.redirect) && t.redirect == A.None
      else t.next == s.next && t.redirect == s.redirect
  {
  }

  lemma OldestAnswered(s: Sys, e: Env, code: Code)
    requires Ordinary(s, e, code) && e.rvalid && (s.ctl.flushAfterResp || s.ctl.flushCnt == 0)
    ensures Wanted(s) != [] && Inputs(s, e, code).rdata == code(Wanted(s)[0])
  {
    assert Waiting(s)[0] == s.granted[0];
  }

  /** The pieces of an ordinary cycle put together. */
  lemma MovedFrom(s: Sys, t: Sys, e: Env, code: Code, pulpObi: bool, arrived: bool)
    requires Ordinary(s, e, code) && Counted(t)
    requires arrived == (e.rvalid && (s.ctl.flushAfterResp || s.ctl.flushCnt == 0))
    requires arrived ==> Wanted(s) != [] && Inputs(s, e, code).rdata == code(Wanted(s)[0])
    requires t.fifo == Filled(s, e, code) && Wanted(t) == Remaining(s, e) + New(s, e, code, pulpObi)
    requires var accepted := Accepts(s, e, code, pulpObi);
      && (if accepted then t.ctl.addr == Coming(s.ctl) && !t.ctl.branchWait
          else t.ctl.addr == s.ctl.addr && t.ctl.branchWait == s.ctl.branchWait)
      && (accepted ==> |s.fifo| + |Wanted(s)| < DEPTH)
      && New(s, e, code, pulpObi) == (if accepted then [Coming(s.ctl)] else [])
    requires if e.ready then t.next == Following(s.next, s.redirect) && t.redirect == A.None
             else t.next == s.next && t.redirect == s.redirect
    ensures Moved(s, t, arrived, e.ready, Accepts(s, e, code, pulpObi), code)
  {
  }

  lemma OrdinaryMoves(s: Sys, e: Env, code: Code, pulpObi: bool)
    requires Ordinary(s, e, code)
    ensures Counted(Tick(s, e, code, pulpObi))
    ensures Moved(s, Tick(s, e, code, pulpObi), e.rvalid && (s.ctl.flushAfterResp || s.ctl.flushCnt == 0),
                  e.ready, Accepts(s, e, code, pulpObi), code)
  {
    OrdinaryFifo(s, e, code, pulpObi);
    OrdinaryWanted(s, e, code, pulpObi);
    OrdinaryAddress(s, e, code, pulpObi);
    OrdinaryStream(s, e, code, pulpObi);
    var arrived := e.rvalid && (s.ctl.flushAfterResp || s.ctl.flushCnt == 0);
    if arrived { OldestAnswered(s, e, code); }
    MovedFrom(s, Tick(s, e, code, pulpObi), e, code, pulpObi, arrived);
  }

  /** Every cycle of every branch, jump, bus and consumer pattern keeps the invariant. */
  lemma InvStep(s: Sys, e: Env, code: Code, pulpObi: bool)
    requires Inv(s, code) && Allowed(s, e, code)
    ensures Inv(Tick(s, e, code, pulpObi), code)
  {
    var t, accepted := Tick(s, e, code, pulpObi), Accepts(s, e, code, pulpObi);
    match e.branch {
      case Some(address) =>
        BranchStep(s, e, code, pulpObi);
        RestartedOnStream(t, address, accepted, code);
      case None =>
        if e.jump == A.None {
          OrdinaryMoves(s, e, code, pulpObi);
          MovedOnStream(s, t, e.rvalid && (s.ctl.flushAfterResp || s.ctl.flushCnt == 0), e.ready, accepted, code);
        } else if s.fifo != [] || e.rvalid {
          JumpStep(s, e, code, pulpObi);
          if !e.ready { OfferedIsNext(s, e.(ready := true), code); }
          RestartedOnStream(t, e.jump.value, accepted, code);
        } else {
          JumpWaitStep(s, e, code, pulpObi);
          JumpWaitOnStream(t, e.jump.value, accepted, code);
        }
    }
  }

  // -------------------------------------------------------------------- whole runs

  /** Reset. */
  function Start(): Sys {
    Sys(Ctl(false, 0, 0, 0, false, 0), [], Obi(false, 0), [], A.NextWord(0), A.None)
  }

  function Stepper(code: Code, pulpObi: bool): (Sys, Env) -> Sys { (s: Sys, e: Env) => Tick(s, e, code, pulpObi) }

  /** The promises of bus and consumer, where the counters fit. */
  function Obeys(code: Code): (Sys, Env) -> bool { (s: Sys, e: Env) => Counted(s) && Allowed(s, e, code) }

  lemma InvRun(s: Sys, env: nat -> Env, code: Code, pulpObi: bool, n: nat)
    requires Inv(s, code) && Kept(s, Stepper(code, pulpObi), Obeys(code), env, n)
    ensures Inv(Run(s, Stepper(code, pulpObi), env, n), code)
  {
    var step, ok := Stepper(code, pulpObi), Obeys(code);
    forall x, e | Inv(x, code) && ok(x, e) ensures Inv(step(x, e), code) { InvStep(x, e, code, pulpObi); }
    Invariant((x: Sys) => Inv(x, code), ok, s, step, env, n);
  }

  /** Along every run, whatever the grants, the answers, the branches and the loop jumps:
      a word offered is the stream's next, never more than two transactions are
      unanswered, and FIFO and wanted answers together hold at most two words. */
  lemma StreamDelivered(env: nat -> Env, code: Code, pulpObi: bool, n: nat)
    requires Kept(Start(), Stepper(code, pulpObi), Obeys(code), env, n)
    ensures var s := Run(Start(), Stepper(code, pulpObi), env, n);
      && s.ctl.cnt == |Waiting(s)| <= DEPTH
      && Counted(s) && |s.fifo| + |Wanted(s)| <= DEPTH
      && (Allowed(s, env(n), code) && Valid(s, env(n), code) ==> Offered(s, env(n), code) == code(s.next))
  {
    InvRun(Start(), env, code, pulpObi, n);
    var s := Run(Start(), Stepper(code, pulpObi), env, n);
    if Allowed(s, env(n), code) && Valid(s, env(n), code) { OfferedIsNext(s, env(n), code); }
  }

  /** In the legacy bus mode no transaction is made before the one before it is answered. */
  lemma LegacyStep(s: Sys, e: Env, code: Code)
    requires Inv(s, code) && Allowed(s, e, code) && s.ctl.cnt <= 1
    ensures Tick(s, e, code, true).ctl.cnt <= 1
  {
  }

  lemma LegacyOneByOne(env: nat -> Env, code: Code, n: nat)
    requires Kept(Start(), Stepper(code, true), Obeys(code), env, n)
    ensures var s := Run(Start(), Stepper(code, true), env, n); s.ctl.cnt == |Waiting(s)| <= 1
  {
    var step, ok := Stepper(code, true), Obeys(code);
    forall x, e | Inv(x, code) && x.ctl.cnt <= 1 && ok(x, e) ensures Inv(step(x, e), code) && step(x, e).ctl.cnt <= 1 {
      InvStep(x, e, code, true);
      LegacyStep(x, e, code);
    }
    Invariant((x: Sys) => Inv(x, code) && x.ctl.cnt <= 1, ok, Start(), step, env, n);
  }

  /** The words taken in the first n cycles from s. */
  function Taken(s: Sys, env: nat -> Env, code: Code, pulpObi: bool, n: nat): seq<A.Word> {
    if n == 0 then []
    else
      var before := Taken(s, env, code, pulpObi, n - 1);
      if env(n - 1).ready
      then before + [Offered(Run(s, Stepper(code, pulpObi), env, n - 1), env(n - 1), code)] else before
  }

  /** The promises kept, and neither a branch nor a loop jump. */
  function Undisturbed(code: Code): (Sys, Env) -> bool {
    (s: Sys, e: Env) => e.branch == A.None && e.jump == A.None && Counted(s) && Allowed(s, e, code)
  }

  /** These are the words of code from `start` on, and the stream goes on behind them. */
  predicate Consecutive(words: seq<A.Word>, t: Sys, start: nat, code: Code) {
    && Inv(t, code) && t.redirect == A.None && t.next == Plus(start, |words|)
    && forall k :: 0 <= k < |words| ==> words[k] == code(Plus(start, k))
  }

  lemma NextConsecutive(words: seq<A.Word>, t: Sys, u: Sys, start: nat, word: A.Word, taken: bool, code: Code)
    requires Consecutive(words, t, start, code) && Inv(u, code) && u.redirect == A.None
    requires u.next == if taken then A.NextWord(t.next) else t.next
    requires taken ==> word == code(t.next)
    ensures Consecutive(if taken then words + [word] else words, u, start, code)
  {
  }

  lemma TakeConsecutive(words: seq<A.Word>, t: Sys, start: nat, e: Env, code: Code, pulpObi: bool)
    requires Consecutive(words, t, start, code) && Ordinary(t, e, code)
    ensures Consecutive(if e.ready then words + [Offered(t, e, code)] else words,
                        Tick(t, e, code, pulpObi), start, code)
  {
    InvStep(t, e, code, pulpObi);
    OrdinaryStream(t, e, code, pulpObi);
    if e.ready { OfferedIsNext(t, e, code); }
    NextConsecutive(words, t, Tick(t, e, code, pulpObi), start, Offered(t, e, code), e.ready, code);
  }

  /** Until the next branch or jump, the words taken are consecutive words of code, none
      skipped or repeated. */
  lemma {:induction false} WordsInOrder(s: Sys, env: nat -> Env, code: Code, pulpObi: bool, n: nat)
    requires Inv(s, code) && s.redirect == A.None && Kept(s, Stepper(code, pulpObi), Undisturbed(code), env, n)
    ensures Consecutive(Taken(s, env, code, pulpObi, n), Run(s, Stepper(code, pulpObi), env, n), s.next, code)
  {
    if n > 0 {
      WordsInOrder(s, env, code, pulpObi, n - 1);
      var words, t, e := Taken(s, env, code, pulpObi, n - 1), Run(s, Stepper(code, pulpObi), env, n - 1), env(n - 1);
      assert Undisturbed(code)(t, e);
      TakeConsecutive(words, t, s.next, e, code, pulpObi);
    }
  }

  /** With one word held or on its way and taken now, the next transaction is accepted. */
  lemma NothingElseHeld(s: Sys, e: Env, code: Code, pulpObi: bool)
    requires Ordinary(s, e, code) && e.ready && e.req && s.redirect == A.None
    requires |s.fifo| + |Wanted(s)| == 1
    ensures Accepts(s, e, code, pulpObi)
  {
    assert Wanted(s) == Waiting(s);
    if s.fifo == [] { assert |s.granted| == 1; }
  }

  /** After a word is taken while fetching goes on, a loop jump may come: the word after it,
      and nothing else, is already held or requested. */
  lemma JumpReadyAfterTake(s: Sys, e: Env, code: Code, pulpObi: bool)
    requires Ordinary(s, e, code) && e.ready && e.req && s.redirect == A.None
    ensures Counted(Tick(s, e, code, pulpObi)) && JumpReady(Tick(s, e, code, pulpObi))
    ensures OneAhead(Tick(s, e, code, pulpObi))
  {
    OrdinaryMoves(s, e, code, pulpObi);
    OrdinaryFlush(s, e, code, pulpObi);
    if |s.fifo| + |Wanted(s)| == 1 { NothingElseHeld(s, e, code, pulpObi); }
  }

  predicate OneAhead(s: Sys)
    requires Counted(s)
  {
    |s.fifo| + |Wanted(s)| == 1
  }

  // ----------------------------------------------------------- words not taken

  /** A word offered and not taken stays in front; it is offered again at once unless the
      answer that brought it starts a delayed drop of others. */
  lemma OfferIsStable(s: Sys, e: Env, next: Env, code: Code, pulpObi: bool)
    requires Ordinary(s, e, code) && Valid(s, e, code) && !e.ready && next.branch == A.None
    ensures var t := Tick(s, e, code, pulpObi);
      && Offered(t, next, code) == Offered(s, e, code)
      && (Valid(t, next, code) <==> !s.ctl.flushAfterResp || s.ctl.flushDelayed == 0)
  {
    OrdinaryFifo(s, e, code, pulpObi);
    OrdinaryFlush(s, e, code, pulpObi);
  }

  /** No drop of others is due behind a loop's last word. */
  predicate NothingToDrop(s: Sys) { s.ctl.flushAfterResp ==> s.ctl.flushDelayed == 0 }

  /** A loop jump that finds one word ahead never has others to drop. */
  lemma NothingToDropStep(s: Sys, e: Env, code: Code, pulpObi: bool)
    requires Inv(s, code) && Allowed(s, e, code) && NothingToDrop(s)
    requires e.jump.Some? && e.branch == A.None ==> OneAhead(s)
    ensures NothingToDrop(Tick(s, e, code, pulpObi))
  {
  }

  /** Then a word offered and not taken is offered again at once, a jump in between or not. */
  lemma OfferStays(s: Sys, e: Env, next: Env, code: Code, pulpObi: bool)
    requires Inv(s, code) && Allowed(s, e, code) && NothingToDrop(s)
    requires e.jump.Some? && e.branch == A.None ==> OneAhead(s)
    requires Valid(s, e, code) && !e.ready && next.branch == A.None
    ensures var t := Tick(s, e, code, pulpObi); Valid(t, next, code) && Offered(t, next, code) == Offered(s, e, code)
  {
    if e.jump == A.None { OfferIsStable(s, e, next, code, pulpObi); } else { JumpStep(s, e, code, pulpObi); }
  }

  /** Three cycles from reset bring a state in which an offer is withdrawn: two words are
      requested, a jump to `target` comes before the first arrives, and that word is not
      taken when it does. */
  function Withdrawing(target: nat, t: nat): Env {
    Env(true, A.None, if t == 2 then A.Some(target) else A.None, false, true, t == 3)
  }

  lemma OfferWithdrawn(code: Code, target: nat)
    ensures var env := (t: nat) => Withdrawing(target, t); var step := Stepper(code, false);
      && Kept(Start(), step, Obeys(code), env, 4)
      && Valid(Run(Start(), step, env, 3), env(3), code) && !env(3).ready
      && !Valid(Run(Start(), step, env, 4), env(4), code) && env(4).branch == A.None
  {
    var env, step := (t: nat) => Withdrawing(target, t), Stepper(code, false);
    var s1 := Sys(Ctl(false, 1, 0, 1, false, 0), [], Obi(false, 0), [1], 1, A.None);
    var s2 := Sys(Ctl(false, 2, 0, 2, false, 0), [], Obi(false, 0), [1, 2], 1, A.None);
    var s3 := Sys(Ctl(true, 2, 0, target, true, 1), [], Obi(false, 0), [1, 2], 1, A.Some(target));
    assert Run(Start(), step, env, 0) == Start();
    assert Tick(Start(), env(0), code, false) == s1;
    assert Tick(s1, env(1), code, false) == s2;
    assert Tick(s2, env(2), code, false) == s3;
    assert Run(Start(), step, env, 1) == s1;
    assert Run(Start(), step, env, 2) == s2;
    assert Run(Start(), step, env, 3) == s3;
    var ok := Obeys(code);
    assert Counted(Start()) && Counted(s1) && Counted(s2) && Counted(s3);
    assert Allowed(Start(), env(0), code) && Allowed(s1, env(1), code);
    assert Allowed(s2, env(2), code) && Allowed(s3, env(3), code);
    assert ok(Start(), env(0)) && ok(s1, env(1)) && ok(s2, env(2)) && ok(s3, env(3));
    assert Kept(Start(), step, ok, env, 0);
    assert Kept(Start(), step, ok, env, 1);
    assert Kept(Start(), step, ok, env, 2);
  }

  // -------------------------------------------------------------------- progress

  /** obi_req_o */
  predicate Requests(s: Sys, e: Env, code: Code, pulpObi: bool) {
    s.obi.registered || TransValid(s.ctl, |s.fifo|, Inputs(s, e, code), pulpObi)
  }

  /** The bus has a request or an unanswered transaction. */
  predicate Owes(s: Sys, e: Env, code: Code, pulpObi: bool) { Requests(s, e, code, pulpObi) || s.granted != [] }

  /** And neither grants nor answers. */
  predicate BusIdles(s: Sys, e: Env, code: Code, pulpObi: bool) {
    Owes(s, e, code, pulpObi) && !(Requests(s, e, code, pulpObi) && e.gnt) && !e.rvalid
  }

  /** A word is held and nothing is being dropped: it is offered until it is taken. */
  predicate Steady(s: Sys) { s.fifo != [] && s.ctl.flushCnt == 0 }

  /** The answers still to come before that. */
  function AnswersNeeded(s: Sys): nat {
    if s.fifo != [] then s.ctl.flushCnt
    else if s.ctl.flushAfterResp then 1 + s.ctl.flushDelayed
    else s.ctl.flushCnt + 1
  }

  /** With the grants that may come in between. */
  function EventsLeft(s: Sys): nat
    requires |s.granted| <= DEPTH
  {
    2 * AnswersNeeded(s) + DEPTH - |s.granted|
  }

  const MOST_EVENTS: nat := 8

  lemma EventsBounded(s: Sys)
    requires Counted(s)
    ensures |s.granted| <= DEPTH && EventsLeft(s) <= MOST_EVENTS
  {
  }

  lemma SteadyOffers(s: Sys, e: Env, code: Code)
    requires Inv(s, code) && Steady(s) && e.branch == A.None
    ensures Valid(s, e, code) && Offered(s, e, code) == code(s.next)
  {
    assert At(s.next, s.redirect, 0) == s.next;
  }

  lemma SteadyStays(s: Sys, e: Env, code: Code, pulpObi: bool)
    requires Ordinary(s, e, code) && !e.ready && Steady(s)
    ensures Steady(Tick(s, e, code, pulpObi))
  {
    OrdinaryFifo(s, e, code, pulpObi);
    OrdinaryFlush(s, e, code, pulpObi);
  }

  /** Until then the bus always has something to do, a grant or an answer brings the word
      closer, and no cycle takes it further away; a pending branch target included. */
  lemma EventsStep(s: Sys, e: Env, code: Code, pulpObi: bool)
    requires Ordinary(s, e, code) && e.req && !e.ready && !Steady(s)
    ensures Counted(Tick(s, e, code, pulpObi)) && |s.granted| <= DEPTH
    ensures var t := Tick(s, e, code, pulpObi);
      && |t.granted| <= DEPTH
      && (if BusIdles(s, e, code, pulpObi) then EventsLeft(t) <= EventsLeft(s)
          else Steady(t) || EventsLeft(t) < EventsLeft(s))
  {
    CountedStep(s, e, code, pulpObi);
    OrdinaryFifo(s, e, code, pulpObi);
    OrdinaryFlush(s, e, code, pulpObi);
  }

  /** Cycles left until the word is offered, the bus never letting more than `bound` cycles in
      a row pass without granting or answering what it owes. */
  function WordRank(s: Sys, bound: nat, wait: nat): nat
    requires |s.granted| <= DEPTH
  {
    CyclesLeft(EventsLeft(s), bound, wait)
  }

  lemma WordRankBounded(s: Sys, bound: nat, wait: nat)
    requires Counted(s)
    ensures |s.granted| <= DEPTH && WordRank(s, bound, wait) <= CyclesFor(MOST_EVENTS, bound)
  {
    EventsBounded(s);
    MoreEvents(EventsLeft(s), MOST_EVENTS, bound);
  }

  lemma WordStep(s: Sys, e: Env, code: Code, pulpObi: bool, bound: nat, wait: nat)
    requires Ordinary(s, e, code) && e.req && !e.ready
    requires wait <= bound && (BusIdles(s, e, code, pulpObi) ==> wait < bound)
    ensures Counted(Tick(s, e, code, pulpObi)) && |s.granted| <= DEPTH
    ensures var t := Tick(s, e, code, pulpObi);
      && |t.granted| <= DEPTH
      && (Steady(s) ==> Steady(t))
      && (Steady(t) || WordRank(t, bound, NextWait(wait, BusIdles(s, e, code, pulpObi))) < WordRank(s, bound, wait))
  {
    CountedStep(s, e, code, pulpObi);
    if Steady(s) {
      SteadyStays(s, e, code, pulpObi);
    } else {
      var t, idle := Tick(s, e, code, pulpObi), BusIdles(s, e, code, pulpObi);
      EventsStep(s, e, code, pulpObi);
      if !Steady(t) { CloserToEnd(EventsLeft(s), EventsLeft(t), bound, wait, idle); }
    }
  }

  /** Fetching, and the word not taken yet. */
  function Untaken(code: Code): (Sys, Env) -> bool {
    (s: Sys, e: Env) => e.req && !e.ready && e.branch == A.None && e.jump == A.None && Counted(s) && Allowed(s, e, code)
  }

  function Idling(code: Code, pulpObi: bool): (Sys, Env) -> bool {
    (s: Sys, e: Env) => BusIdles(s, e, code, pulpObi)
  }

  function Toward(next: nat, code: Code): Sys -> bool { (s: Sys) => Inv(s, code) && s.next == next }

  function Offering(): Sys -> bool { (s: Sys) => Steady(s) }

  function WordRanks(bound: nat): (Sys, nat, nat) -> nat {
    (s: Sys, w1: nat, w2: nat) => if |s.granted| <= DEPTH then WordRank(s, bound, w1) else 0
  }

  function Bus(code: Code, pulpObi: bool, bound: nat): Parties<Sys, Env> {
    Parties(Idling(code, pulpObi), bound, Nobody(), 0)
  }

  lemma WordDescends(next: nat, code: Code, pulpObi: bool, bound: nat)
    ensures Descends(Toward(next, code), Offering(), WordRanks(bound), Stepper(code, pulpObi), Untaken(code),
                     Bus(code, pulpObi, bound))
  {
    var step, p := Stepper(code, pulpObi), Bus(code, pulpObi, bound);
    forall s: Sys, e, w1: nat, w2: nat | Toward(next, code)(s) && Untaken(code)(s, e) && InTime(s, e, p, w1, w2)
      ensures Toward(next, code)(step(s, e)) && (Steady(s) ==> Steady(step(s, e)))
      ensures Steady(step(s, e))
              || RankAfter(WordRanks(bound), step(s, e), s, e, p, w1, w2) < WordRanks(bound)(s, w1, w2)
    {
      InvStep(s, e, code, pulpObi);
      WordStep(s, e, code, pulpObi, bound, w1);
    }
  }

  /** Progress. From every state the invariant allows, answers to drop, an ungranted request
      and a branch target still to be requested included: while fetching goes on and the bus
      never lets more than `bound` cycles in a row pass without granting or answering what
      it owes, the next word of the stream is offered within eight such spans, and stays. */
  lemma WordComes(s: Sys, env: nat -> Env, code: Code, pulpObi: bool, bound: nat, n: nat, e: Env)
    requires Inv(s, code) && Kept(s, Stepper(code, pulpObi), Untaken(code), env, n)
    requires Patient(s, Stepper(code, pulpObi), Idling(code, pulpObi), env, bound, n)
    requires n > CyclesFor(MOST_EVENTS, bound) && e.branch == A.None
    ensures var t := Run(s, Stepper(code, pulpObi), env, n);
      Inv(t, code) && Valid(t, e, code) && Offered(t, e, code) == code(s.next)
  {
    NobodyWaits(s, Stepper(code, pulpObi), env, n);
    WordRankBounded(s, bound, 0);
    WordDescends(s.next, code, pulpObi, bound);
    Arrival(Toward(s.next, code), Offering(), WordRanks(bound), s, Stepper(code, pulpObi), Untaken(code),
            Bus(code, pulpObi, bound), env, n);
    SteadyOffers(Run(s, Stepper(code, pulpObi), env, n), e, code);
  }

  // ---------------------------------------------------------------------- full speed

  /** A bus that grants at once and answers in the next cycle, with nothing left undone but
      what it answers in this one, and a word held or arriving. */
  predicate Fast(s: Sys) {
    && |s.granted| <= 1 && !s.obi.registered && !s.ctl.branchWait
    && s.ctl.flushCnt == 0 && !s.ctl.flushAfterResp && (s.fifo != [] || s.granted != [])
  }

  predicate FastBus(s: Sys, e: Env) { e.gnt && (e.rvalid <==> s.granted != []) }

  /** Then a word is offered in every cycle without a branch, and one branch, jump or word
      taken after the other leaves it so. */
  lemma FastBusOffers(s: Sys, e: Env, code: Code, pulpObi: bool)
    requires Inv(s, code) && Allowed(s, e, code) && Fast(s) && FastBus(s, e) && e.req
    ensures Valid(s, e, code) <==> e.branch == A.None
    ensures Fast(Tick(s, e, code, pulpObi))
  {
  }
}
