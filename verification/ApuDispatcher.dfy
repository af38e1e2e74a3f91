/** The APU dispatcher (cv32e40p_apu_disp): two slots for the destination registers of
    operations whose results have not returned. */
module ApuDispatcher {
  import opened Runs

  /** One cycle's inputs; latencies are two bits wide. */
  datatype In = In(enable: bool, lat: nat, waddr: nat, gnt: bool, rvalid: bool)

  datatype Regs = Regs(validInflight: bool, validWaiting: bool, addrInflight: nat, addrWaiting: nat, lat: nat)

  // ------------------------------------------------------------ combinational signals

  predicate StallFull(r: Regs) { r.validInflight && r.validWaiting }

  predicate StallType(r: Regs, i: In) {
    i.enable && (r.validInflight || r.validWaiting)
    && (i.lat == 1 || (i.lat == 2 && r.lat == 3) || i.lat == 3)
  }

  predicate ValidReq(r: Regs, i: In) { i.enable && !(StallFull(r) || StallType(r, i)) }

  predicate ReqAccepted(r: Regs, i: In) { ValidReq(r, i) && i.gnt }

  predicate ReturnedReq(r: Regs, i: In) { ValidReq(r, i) && i.rvalid && !r.validInflight && !r.validWaiting }

  predicate ReturnedInflight(r: Regs, i: In) { r.validInflight && i.rvalid && !r.validWaiting }

  predicate ReturnedWaiting(r: Regs, i: In) { r.validWaiting && i.rvalid }

  /** apu_waddr_o; the later assignments win. */
  function Waddr(r: Regs, i: In): nat {
    if ReturnedWaiting(r, i) then r.addrWaiting
    else if ReturnedInflight(r, i) then r.addrInflight
    else if ReturnedReq(r, i) then i.waddr
    else 0
  }

  function Next(r: Regs, i: In): Regs {
    var lat := if ValidReq(r, i) then i.lat else r.lat;
    if ReqAccepted(r, i) && !ReturnedReq(r, i) then
      var shift := (r.validInflight && !ReturnedInflight(r, i)) || ReturnedWaiting(r, i);
      Regs(true, shift || r.validWaiting, i.waddr, if shift then r.addrInflight else r.addrWaiting, lat)
    else if ReturnedInflight(r, i) then Regs(false, false, 0, 0, lat)
    else if ReturnedWaiting(r, i) then Regs(r.validInflight, false, r.addrInflight, 0, lat)
    else r.(lat := lat)
  }

  /** The module: its registers, the slots' always_comb and the clocked processes. */
  class Dispatcher {
    var validInflight: bool
    var validWaiting: bool
    var addrInflight: nat
    var addrWaiting: nat
    var apuLat: nat

    function Registers(): Regs
      reads this
    {
      Regs(validInflight, validWaiting, addrInflight, addrWaiting, apuLat)
    }

    /** Reset. */
    constructor ()
      ensures Registers() == Regs(false, false, 0, 0, 0)
    {
      validInflight, validWaiting, addrInflight, addrWaiting, apuLat := false, false, 0, 0, 0;
    }

    /** One rising clock edge, with the outputs of the cycle it ends. */
    method Clock(i: In) returns (req: bool, waddr: nat)
      modifies this
      ensures Registers() == Next(old(Registers()), i)
      ensures req == ValidReq(old(Registers()), i) && waddr == Waddr(old(Registers()), i)
    {
      var r := Registers();
      req := ValidReq(r, i);
      waddr := 0;
      if ReturnedReq(r, i) { waddr := i.waddr; }
      if ReturnedInflight(r, i) { waddr := addrInflight; }
      if ReturnedWaiting(r, i) { waddr := addrWaiting; }
      if ReqAccepted(r, i) && !ReturnedReq(r, i) {
        validInflight, addrInflight := true, i.waddr;
        if r.validInflight && !ReturnedInflight(r, i) {
          validWaiting, addrWaiting := true, r.addrInflight;
        }
        if ReturnedWaiting(r, i) {
          validWaiting, addrWaiting := true, r.addrInflight;
        }
      } else if ReturnedInflight(r, i) {
        validInflight, validWaiting, addrInflight, addrWaiting := false, false, 0, 0;
      } else if ReturnedWaiting(r, i) {
        validWaiting, addrWaiting := false, 0;
      }
      if req { apuLat := i.lat; }
    }
  }

  // ------------------------------------------------------------------ the queue

  predicate Sound(r: Regs) { r.validWaiting ==> r.validInflight }

  /** The outstanding destinations, oldest first. */
  function Outstanding(r: Regs): (q: seq<nat>)
    ensures |q| <= 2
  {
    (if r.validWaiting then [r.addrWaiting] else []) + (if r.validInflight then [r.addrInflight] else [])
  }

  /** A request joins when it is accepted, even if it returns in the same cycle. */
  function Joined(r: Regs, i: In): seq<nat> {
    Outstanding(r) + (if ReqAccepted(r, i) then [i.waddr] else [])
  }

  /** Results return only for something outstanding or accepted in this cycle. */
  predicate Allowed(r: Regs, i: In) { i.rvalid ==> Joined(r, i) != [] }

  /** The slots are a queue of at most two with same-cycle bypass: each return names the
      oldest destination and removes it. */
  lemma StepRefines(r: Regs, i: In)
    requires Sound(r) && Allowed(r, i)
    ensures Sound(Next(r, i))
    ensures Outstanding(Next(r, i)) == if i.rvalid then Joined(r, i)[1..] else Joined(r, i)
    ensures i.rvalid ==> Waddr(r, i) == Joined(r, i)[0]
  {
  }

  /** The module's own assertion on returns. */
  predicate Asserted(r: Regs, i: In) { i.rvalid ==> ValidReq(r, i) || r.validInflight || r.validWaiting }

  /** It also lets a return name a request that is not granted: exactly then the
      destination is output although nothing was accepted. */
  lemma UngrantedReturn(r: Regs, i: In)
    requires Sound(r) && i.rvalid && Asserted(r, i)
    ensures Allowed(r, i) <==> r.validInflight || i.gnt
    ensures !Allowed(r, i) ==> !ReqAccepted(r, i) && Waddr(r, i) == i.waddr && Outstanding(Next(r, i)) == []
  {
  }

  // ---------------------------------------------------------------- dependency checks

  /** A read register is checked against the request and both slots while ID decodes. */
  predicate ReadDep(r: Regs, i: In, regs: seq<nat>, valid: seq<bool>, isDecoding: bool)
    requires |regs| == |valid|
  {
    var hits := (addr: nat) => exists k :: 0 <= k < |regs| && regs[k] == addr && valid[k];
    && isDecoding
    && (|| (hits(i.waddr) && ValidReq(r, i) && !ReturnedReq(r, i))
        || (hits(r.addrInflight) && r.validInflight && !ReturnedInflight(r, i))
        || (hits(r.addrWaiting) && r.validWaiting && !ReturnedWaiting(r, i)))
  }

  /** Requested or outstanding, without the one that returns in this cycle. */
  function Unreturned(r: Regs, i: In): seq<nat>
    requires Asserted(r, i)
  {
    var all := Outstanding(r) + (if ValidReq(r, i) then [i.waddr] else []);
    if i.rvalid then all[1..] else all
  }

  /** There is a dependency exactly when ID decodes and a register in use is the
      destination of a result that is requested or outstanding and does not return in this
      cycle. */
  lemma DependencyExact(r: Regs, i: In, regs: seq<nat>, valid: seq<bool>, isDecoding: bool)
    requires |regs| == |valid| && Sound(r) && Asserted(r, i)
    ensures ReadDep(r, i, regs, valid, isDecoding) <==>
              isDecoding && exists k :: 0 <= k < |regs| && valid[k] && regs[k] in Unreturned(r, i)
  {
    var waiting := if r.validWaiting && !ReturnedWaiting(r, i) then [r.addrWaiting] else [];
    var inflight := if r.validInflight && !ReturnedInflight(r, i) then [r.addrInflight] else [];
    var request := if ValidReq(r, i) && !ReturnedReq(r, i) then [i.waddr] else [];
    assert Unreturned(r, i) == waiting + inflight + request;
  }

  // -------------------------------------------------------------------- whole runs

  datatype Sys = Sys(regs: Regs, accepted: seq<nat>, returned: seq<nat>)

  function Tick(s: Sys, i: In): Sys {
    Sys(Next(s.regs, i),
        if ReqAccepted(s.regs, i) then s.accepted + [i.waddr] else s.accepted,
        if i.rvalid then s.returned + [Waddr(s.regs, i)] else s.returned)
  }

  /** Reset. */
  function Start(): Sys { Sys(Regs(false, false, 0, 0, 0), [], []) }

  function Stepper(): (Sys, In) -> Sys { (s: Sys, i: In) => Tick(s, i) }

  /** Waiting implies in flight, and the accepted destinations are the returned ones
      followed by the outstanding ones. */
  predicate InStep(s: Sys) { Sound(s.regs) && s.accepted == s.returned + Outstanding(s.regs) }

  /** A queue that something joins and the head may leave. */
  lemma Balance(accepted: seq<nat>, returned: seq<nat>, out: seq<nat>, joining: seq<nat>, head: nat, leaves: bool)
    requires accepted == returned + out && (leaves ==> out + joining != [] && head == (out + joining)[0])
    ensures accepted + joining == (if leaves then returned + [head] else returned)
                                  + (if leaves then (out + joining)[1..] else out + joining)
  {
    if leaves { assert out + joining == [head] + (out + joining)[1..]; }
  }

  lemma InStepNext(s: Sys, i: In)
    requires InStep(s) && Allowed(s.regs, i)
    ensures InStep(Tick(s, i))
  {
    StepRefines(s.regs, i);
    Balance(s.accepted, s.returned, Outstanding(s.regs), if ReqAccepted(s.regs, i) then [i.waddr] else [],
            Waddr(s.regs, i), i.rvalid);
  }

  /** Along every run, waiting implies in flight, and the accepted destinations are the
      returned ones followed by the outstanding ones: each is output once, oldest first. */
  lemma {:induction false} ReturnedOnceInOrder(ins: nat -> In, n: nat)
    requires Kept(Start(), Stepper(), (s: Sys, i: In) => Allowed(s.regs, i), ins, n)
    ensures var s := Run(Start(), Stepper(), ins, n);
      Sound(s.regs) && s.accepted == s.returned + Outstanding(s.regs)
  {
    var step, ok := Stepper(), (s: Sys, i: In) => Allowed(s.regs, i);
    forall s, i | InStep(s) && ok(s, i) ensures InStep(step(s, i)) { InStepNext(s, i); }
    Invariant((s: Sys) => InStep(s), ok, Start(), step, ins, n);
  }

  /** The latency of the last request issued before cycle n, 0 before the first. */
  function LastLatency(ins: nat -> In, n: nat): nat {
    if n == 0 then 0
    else if ValidReq(Run(Start(), Stepper(), ins, n - 1).regs, ins(n - 1)) then ins(n - 1).lat
    else LastLatency(ins, n - 1)
  }

  lemma {:induction false} LatencyKept(ins: nat -> In, n: nat)
    ensures Run(Start(), Stepper(), ins, n).regs.lat == LastLatency(ins, n)
  {
    if n > 0 { LatencyKept(ins, n - 1); }
  }

  /** When a request is issued, in every run: with nothing outstanding always, with two never,
      and behind a single one exactly if its latency is 0, or 2 and the last request's was
      not 3. */
  lemma IssuedExactly(ins: nat -> In, n: nat)
    requires Kept(Start(), Stepper(), (s: Sys, i: In) => Allowed(s.regs, i), ins, n) && ins(n).lat < 4
    ensures var r := Run(Start(), Stepper(), ins, n).regs;
      ValidReq(r, ins(n)) <==>
        ins(n).enable && (Outstanding(r) == []
                          || (|Outstanding(r)| == 1
                              && (ins(n).lat == 0 || (ins(n).lat == 2 && LastLatency(ins, n) != 3))))
  {
    ReturnedOnceInOrder(ins, n);
    LatencyKept(ins, n);
  }

  /** Under the module's assertion alone this fails at once: right after reset a request
      that is not granted and a return output a destination that was never accepted. */
  lemma UngrantedRun(waddr: nat)
    ensures var ins := (t: nat) => In(true, 1, waddr, false, true);
      && Kept(Start(), Stepper(), (s: Sys, i: In) => Asserted(s.regs, i), ins, 1)
      && Run(Start(), Stepper(), ins, 1).returned == [waddr]
      && Run(Start(), Stepper(), ins, 1).accepted == []
  {
    var ins := (t: nat) => In(true, 1, waddr, false, true);
    assert Run(Start(), Stepper(), ins, 0) == Start();
  }
}
