/** One hardware loop, for either register set and whatever start and end the other one was
    left with: its body is executed exactly as often as its counter says. */
module OneLoop {
  import A = Aligner
  import H = HwLoop
  import L = LoopOrder
  import S = LoopStages
  import opened Runs

  /** Loop k has at least three instructions; the other counter is 0. */
  predicate Active(l: H.Pair, k: nat) { k < 2 && l.start[k] + 3 <= l.end[k] < A.WORDS && l.count[1 - k] == 0 }

  /** The words from start to end are whole instructions. */
  ghost predicate Uncompressed(code: A.Code, start: nat, end: nat) {
    forall p: nat :: start <= p < end ==> A.IsLong(code(A.Pc(p, false)))
  }

  function Body(code: A.Code, start: nat, end: nat): (s: seq<A.Insn>)
    requires start <= end
    ensures |s| == end - start
  {
    seq(end - start, i requires 0 <= i < end - start => A.At(code, A.Pc(start + i, false)))
  }

  /** The body n times. */
  function Iterations(code: A.Code, start: nat, end: nat, n: nat): seq<A.Insn>
    requires start <= end
  {
    if n == 0 then [] else Body(code, start, end) + Iterations(code, start, end, n - 1)
  }

  // -------------------------------------------------------------------- the loop's order

  function Counted(l: H.Pair, k: nat, c: nat): H.Pair
    requires k < 2
  {
    l.(count := l.count[k := c])
  }

  /** In DECODE inside the body with iterations left: at the start only, except next to a
      stale end of the other loop. */
  predicate StillDecode(l: H.Pair, k: nat, p: nat)
    requires Active(l, k)
  {
    var start, end, other := l.start[k], l.end[k], l.end[1 - k];
    p == start || (other == start + 2 && (p == start + 1 || (end == start + 3 && p == start + 2)))
  }

  /** At word p of the body with c iterations left; in DECODE, unless it is the last, only if
      d says that the loop was entered so. */
  predicate Within(a: L.At, l: H.Pair, k: nat, p: nat, c: nat, d: bool) {
    && Active(l, k) && l.start[k] <= p < l.end[k] && c > 0
    && a.pc == A.Pc(p, false) && a.loops == Counted(l, k, c)
    && (a.fsm == H.Decode && c > 1 ==> d && StillDecode(l, k, p))
  }

  lemma CountDown(l: H.Pair, k: nat, p: nat, c: nat)
    requires Active(l, k) && l.start[k] <= p < l.end[k] && c > 0
    ensures L.NextLoops(Counted(l, k, c), A.Pc(p, false), L.Executes(L.NoWrite()))
         == Counted(l, k, if p + 1 == l.end[k] then c - 1 else c)
  {
    assert L.NextLoops(Counted(l, k, c), A.Pc(p, false), L.Executes(L.NoWrite())).count
        == Counted(l, k, if p + 1 == l.end[k] then c - 1 else c).count;
  }

  /** The next instruction of the body. */
  lemma BodyStep(a: L.At, l: H.Pair, k: nat, p: nat, c: nat, d: bool, code: A.Code)
    requires Within(a, l, k, p, c, d) && Uncompressed(code, l.start[k], l.end[k])
    ensures L.Sound(a, L.Executes(L.NoWrite()), code)
    ensures var b := L.After(a, L.Executes(L.NoWrite()), code);
      if p + 1 < l.end[k] then Within(b, l, k, p + 1, c, d)
      else if c > 1 then Within(b, l, k, l.start[k], c - 1, d)
      else b.pc == A.Pc(l.end[k], false) && b.loops == Counted(l, k, 0)
  {
    CountDown(l, k, p, c);
  }

  /** What is left to execute from word p with c iterations left. */
  function Remaining(code: A.Code, start: nat, end: nat, p: nat, c: nat): seq<A.Insn>
    requires start <= p < end && c > 0
    decreases c, end - p
  {
    [A.At(code, A.Pc(p, false))]
    + (if p + 1 < end then Remaining(code, start, end, p + 1, c)
       else if c > 1 then Remaining(code, start, end, start, c - 1) else [])
  }

  lemma LeadsNowhere(a: L.At, prog: L.Program, code: A.Code, i: nat)
    ensures L.LeadsTo(a, prog, code, i, [], a.pc, a.loops)
  {
  }

  lemma {:induction false} RemainingLeads(a: L.At, l: H.Pair, k: nat, p: nat, c: nat, d: bool, prog: L.Program,
                                          code: A.Code, i: nat)
    requires Within(a, l, k, p, c, d) && Uncompressed(code, l.start[k], l.end[k]) && L.Plainly(prog, i)
    ensures L.LeadsTo(a, prog, code, i, Remaining(code, l.start[k], l.end[k], p, c),
                      A.Pc(l.end[k], false), Counted(l, k, 0))
    decreases c, l.end[k] - p
  {
    var start, end, b := l.start[k], l.end[k], L.After(a, prog(i, a.pc), code);
    BodyStep(a, l, k, p, c, d, code);
    var rest := if p + 1 < end then Remaining(code, start, end, p + 1, c)
                else if c > 1 then Remaining(code, start, end, start, c - 1) else [];
    if p + 1 < end { RemainingLeads(b, l, k, p + 1, c, d, prog, code, i + 1); }
    else if c > 1 { RemainingLeads(b, l, k, start, c - 1, d, prog, code, i + 1); }
    else { LeadsNowhere(b, prog, code, i + 1); }
    L.StepBefore(a, prog, code, i, b, rest, A.Pc(end, false), Counted(l, k, 0));
  }

  lemma BodyFront(code: A.Code, p: nat, end: nat)
    requires p < end
    ensures Body(code, p, end) == [A.At(code, A.Pc(p, false))] + Body(code, p + 1, end)
  {
  }

  lemma Regroup(first: seq<A.Insn>, body: seq<A.Insn>, more: seq<A.Insn>)
    ensures first + (body + more) == (first + body) + more
    ensures body == [] ==> first + more == (first + body) + more
  {
  }

  lemma {:induction false} RemainingIsBody(code: A.Code, start: nat, end: nat, p: nat, c: nat)
    requires start <= p < end && c > 0
    ensures Remaining(code, start, end, p, c) == Body(code, p, end) + Iterations(code, start, end, c - 1)
    decreases c, end - p
  {
    BodyFront(code, p, end);
    Regroup([A.At(code, A.Pc(p, false))], Body(code, p + 1, end), Iterations(code, start, end, c - 1));
    if p + 1 < end {
      RemainingIsBody(code, start, end, p + 1, c);
    } else if c > 1 {
      RemainingIsBody(code, start, end, start, c - 1);
    }
  }

  /** The order stands at the start of loop k, which is set up. */
  ghost predicate AtStart(b: L.At, k: nat, code: A.Code) {
    && Active(b.loops, k) && b.loops.count[k] > 0 && b.pc == A.Pc(b.loops.start[k], false)
    && Uncompressed(code, b.loops.start[k], b.loops.end[k])
  }

  /** The body as often as the counter says. */
  function Loop(b: L.At, k: nat, code: A.Code): seq<A.Insn>
    requires Active(b.loops, k)
  {
    Iterations(code, b.loops.start[k], b.loops.end[k], b.loops.count[k])
  }

  lemma CountKept(l: H.Pair, k: nat)
    requires k < 2
    ensures Counted(l, k, l.count[k]) == l
  {
    assert Counted(l, k, l.count[k]).count == l.count;
  }

  /** From the start, in either state of the controller, the body is executed as often. */
  lemma LoopLeads(b: L.At, k: nat, prog: L.Program, code: A.Code, i: nat)
    requires AtStart(b, k, code) && L.Plainly(prog, i)
    ensures L.LeadsTo(b, prog, code, i, Loop(b, k, code), A.Pc(b.loops.end[k], false), Counted(b.loops, k, 0))
  {
    var l, start, end, c := b.loops, b.loops.start[k], b.loops.end[k], b.loops.count[k];
    CountKept(l, k);
    RemainingLeads(b, l, k, start, c, true, prog, code, i);
    RemainingIsBody(code, start, end, start, c);
  }

  /** A promise kept at every step of the body with up to c iterations left. */
  ghost predicate BodyKeeps(l: H.Pair, k: nat, c: nat, d: bool, ok: (L.At, nat) -> bool) {
    forall x, q: nat, left: nat, n {:trigger Within(x, l, k, q, left, d), ok(x, n)} ::
      left <= c && Within(x, l, k, q, left, d) ==> ok(x, n)
  }

  lemma BodyKeepsAt(l: H.Pair, k: nat, c: nat, d: bool, ok: (L.At, nat) -> bool, a: L.At, p: nat, n: nat)
    requires BodyKeeps(l, k, c, d, ok) && Within(a, l, k, p, c, d)
    ensures ok(a, n) && BodyKeeps(l, k, c - 1, d, ok)
  {
  }

  /** Then it is kept for the whole loop. */
  lemma {:induction false} RemainingKept(a: L.At, l: H.Pair, k: nat, p: nat, c: nat, d: bool, prog: L.Program,
                                         code: A.Code, i: nat, ok: (L.At, nat) -> bool)
    requires Within(a, l, k, p, c, d) && Uncompressed(code, l.start[k], l.end[k]) && L.Plainly(prog, i)
    requires BodyKeeps(l, k, c, d, ok)
    ensures Kept(a, L.Stepper(prog, code), ok, L.From(i), |Remaining(code, l.start[k], l.end[k], p, c)|)
    decreases c, l.end[k] - p
  {
    var start, end, b := l.start[k], l.end[k], L.After(a, prog(i, a.pc), code);
    BodyStep(a, l, k, p, c, d, code);
    BodyKeepsAt(l, k, c, d, ok, a, p, i);
    var m := if p + 1 < end then |Remaining(code, start, end, p + 1, c)|
             else if c > 1 then |Remaining(code, start, end, start, c - 1)| else 0;
    if p + 1 < end { RemainingKept(b, l, k, p + 1, c, d, prog, code, i + 1, ok); }
    else if c > 1 { RemainingKept(b, l, k, start, c - 1, d, prog, code, i + 1, ok); }
    L.KeptBefore(a, prog, code, ok, i, b, m);
  }

  lemma LoopCounts(b: L.At, k: nat, prog: L.Program, code: A.Code, i: nat)
    requires AtStart(b, k, code) && L.Plainly(prog, i)
    ensures L.LeftFor(b, k, prog, code, i, |Loop(b, k, code)|)
  {
    var l, start, end, c := b.loops, b.loops.start[k], b.loops.end[k], b.loops.count[k];
    CountKept(l, k);
    RemainingKept(b, l, k, start, c, true, prog, code, i, L.LeftOk(k));
    RemainingIsBody(code, start, end, start, c);
  }

  // ------------------------------------------------------------------ up to the loop

  predicate Inside(l: H.Pair, k: nat, pc: A.Pc)
    requires k < 2
  {
    l.start[k] <= pc.index < l.end[k]
  }

  lemma OutsideIsClear(l: H.Pair, k: nat, pc: A.Pc)
    requires Active(l, k)
    ensures !Inside(l, k, pc) ==> L.Clear(l, pc)
    ensures pc.index == l.start[k] ==> L.Calm(l, pc)
  {
  }

  predicate OutsideFor(l: H.Pair, k: nat, code: A.Code, pc: A.Pc, j: nat)
    requires k < 2
  {
    j == 0 || (OutsideFor(l, k, code, pc, j - 1) && !Inside(l, k, A.WalkPc(code, pc, j - 1)))
  }

  /** The code from pc on comes to the loop's start after j instructions, all outside. */
  predicate Approaches(l: H.Pair, k: nat, code: A.Code, pc: A.Pc, j: nat)
    requires k < 2
  {
    OutsideFor(l, k, code, pc, j) && A.WalkPc(code, pc, j) == A.Pc(l.start[k], false)
  }

  lemma {:induction false} OutsideAt(l: H.Pair, k: nat, code: A.Code, pc: A.Pc, j: nat, t: nat)
    requires k < 2 && OutsideFor(l, k, code, pc, j) && t < j
    ensures !Inside(l, k, A.WalkPc(code, pc, t))
    decreases j
  {
    if t < j - 1 { OutsideAt(l, k, code, pc, j - 1, t); }
  }

  /** One instruction outside, the next outside or the loop's first. */
  lemma OutsideStep(a: L.At, k: nat, act: L.Action, code: A.Code)
    requires Active(a.loops, k) && !Inside(a.loops, k, a.pc) && act == L.Executes(L.NoWrite())
    requires var next := A.After(code, a.pc); Inside(a.loops, k, next) ==> next == A.Pc(a.loops.start[k], false)
    ensures L.CalmAt(a, act, code)
    ensures L.After(a, act, code).loops == a.loops && L.After(a, act, code).pc == A.After(code, a.pc)
  {
    OutsideIsClear(a.loops, k, a.pc);
    OutsideIsClear(a.loops, k, A.After(code, a.pc));
    L.ClearStep(a, code);
  }

  /** A step of the way to the loop: outside, the next outside or the loop's first. */
  predicate OnTheWay(l: H.Pair, k: nat, code: A.Code, pcs: nat -> A.Pc, t: nat)
    requires k < 2
  {
    && !Inside(l, k, pcs(t)) && pcs(t + 1) == A.After(code, pcs(t))
    && (Inside(l, k, pcs(t + 1)) ==> pcs(t + 1) == A.Pc(l.start[k], false))
  }

  function WalkOf(code: A.Code, pc: A.Pc): nat -> A.Pc { (t: nat) => A.WalkPc(code, pc, t) }

  lemma ApproachNext(l: H.Pair, k: nat, code: A.Code, pc: A.Pc, j: nat, t: nat)
    requires k < 2 && Approaches(l, k, code, pc, j) && t < j
    ensures OnTheWay(l, k, code, WalkOf(code, pc), t)
  {
    OutsideAt(l, k, code, pc, j, t);
    if t + 1 < j { OutsideAt(l, k, code, pc, j, t + 1); }
  }

  /** At the t-th place of the way. */
  function Approaching(l: H.Pair, pcs: nat -> A.Pc): (nat, L.At) -> bool {
    (t: nat, x: L.At) => x.loops == l && x.pc == pcs(t)
  }

  lemma ApproachMoves(l: H.Pair, k: nat, prog: L.Program, code: A.Code, pcs: nat -> A.Pc, t: nat, x: L.At, n: nat)
    requires Active(l, k) && OnTheWay(l, k, code, pcs, t)
    requires Approaching(l, pcs)(t, x) && prog(n, x.pc) == L.Executes(L.NoWrite())
    ensures L.CalmOk(prog, code)(x, n)
    ensures Approaching(l, pcs)(t + 1, L.Stepper(prog, code)(x, n))
  {
    OutsideStep(x, k, prog(n, x.pc), code);
  }

  lemma ApproachIsCalm(a: L.At, k: nat, prog: L.Program, code: A.Code, i: nat, pcs: nat -> A.Pc, j: nat)
    requires Active(a.loops, k) && L.Plainly(prog, i) && a.pc == pcs(0)
    requires forall t: nat :: t < j ==> OnTheWay(a.loops, k, code, pcs, t)
    ensures L.CalmFor(a, prog, code, i, j) && Approaching(a.loops, pcs)(j, L.Steps(a, prog, code, i, j))
    ensures a.loops.count[k] > 0 ==> L.LeftFor(a, k, prog, code, i, j)
  {
    var inv, step, ok, env := Approaching(a.loops, pcs), L.Stepper(prog, code), L.CalmOk(prog, code), L.From(i);
    assert inv(0, a);
    forall t: nat, x: L.At | t < j && inv(t, x) ensures ok(x, env(t)) && inv(t + 1, step(x, env(t))) {
      ApproachMoves(a.loops, k, prog, code, pcs, t, x, env(t));
    }
    KeptBy(inv, a, step, ok, env, j, j);
    if a.loops.count[k] > 0 { KeptBy(inv, a, step, L.LeftOk(k), env, j, j); }
  }

  lemma ApproachKept(a: L.At, k: nat, prog: L.Program, code: A.Code, i: nat, j: nat)
    requires Active(a.loops, k) && Approaches(a.loops, k, code, a.pc, j) && L.Plainly(prog, i)
    ensures L.CalmFor(a, prog, code, i, j)
    ensures L.Steps(a, prog, code, i, j).loops == a.loops
    ensures a.loops.count[k] > 0 ==> L.LeftFor(a, k, prog, code, i, j)
  {
    var pcs := WalkOf(code, a.pc);
    forall t: nat | t < j ensures OnTheWay(a.loops, k, code, pcs, t) { ApproachNext(a.loops, k, code, a.pc, j, t); }
    ApproachIsCalm(a, k, prog, code, i, pcs, j);
  }

  // ------------------------------------------------------------------- the whole order

  function Start(a: L.At, prog: L.Program, code: A.Code, j: nat): L.At { L.Steps(a, prog, code, 0, j) }

  /** After j plain instructions, of either length and whatever loop registers they write,
      loop k begins; from there on nothing writes them. */
  ghost predicate Ready(a: L.At, k: nat, prog: L.Program, code: A.Code, j: nat) {
    L.CalmFor(a, prog, code, 0, j) && AtStart(Start(a, prog, code, j), k, code) && L.Plainly(prog, j)
  }

  /** The code up to the loop, and the loop. */
  function Whole(a: L.At, b: L.At, k: nat, code: A.Code, j: nat): seq<A.Insn>
    requires Active(b.loops, k)
  {
    A.Walk(code, a.pc, j) + Loop(b, k, code)
  }

  /** With the registers written beforehand it is enough that the code comes to the start
      and stays outside until then. */
  lemma ApproachIsReady(a: L.At, k: nat, prog: L.Program, code: A.Code, j: nat)
    requires Active(a.loops, k) && a.loops.count[k] > 0 && Uncompressed(code, a.loops.start[k], a.loops.end[k])
    requires Approaches(a.loops, k, code, a.pc, j) && L.Plainly(prog, 0)
    ensures Ready(a, k, prog, code, j) && Start(a, prog, code, j).loops == a.loops
  {
    ApproachKept(a, k, prog, code, 0, j);
    L.CalmWalk(a, prog, code, 0, j);
  }

  lemma WholeLeads(a: L.At, b: L.At, k: nat, prog: L.Program, code: A.Code, j: nat)
    requires Ready(a, k, prog, code, j) && b == Start(a, prog, code, j)
    ensures L.LeadsTo(a, prog, code, 0, Whole(a, b, k, code, j), A.Pc(b.loops.end[k], false), Counted(b.loops, k, 0))
  {
    L.CalmLeads(a, prog, code, 0, j);
    LoopLeads(b, k, prog, code, j);
    L.JoinPlaces(a, prog, code, 0, A.Walk(code, a.pc, j), b.pc, b.loops, j, j, Loop(b, k, code),
                 A.Pc(b.loops.end[k], false), Counted(b.loops, k, 0));
  }

  /** And then the code from the end. */
  lemma BeyondLeads(a: L.At, b: L.At, k: nat, prog: L.Program, code: A.Code, whole: seq<A.Insn>, t: nat)
    requires Active(b.loops, k) && L.Plainly(prog, |whole|)
    requires L.LeadsTo(a, prog, code, 0, whole, A.Pc(b.loops.end[k], false), Counted(b.loops, k, 0))
    ensures var end := A.Pc(b.loops.end[k], false);
      L.LeadsTo(a, prog, code, 0, whole + A.Walk(code, end, t), A.WalkPc(code, end, t), Counted(b.loops, k, 0))
  {
    var c, end := L.Steps(a, prog, code, 0, |whole|), A.Pc(b.loops.end[k], false);
    L.IdleWalk(c, prog, code, |whole|, t, end, Counted(b.loops, k, 0));
    L.JoinPlaces(a, prog, code, 0, whole, end, Counted(b.loops, k, 0), |whole|, |whole|,
                 A.Walk(code, end, t), A.WalkPc(code, end, t), Counted(b.loops, k, 0));
  }

  lemma BeyondWhole(a: L.At, b: L.At, k: nat, prog: L.Program, code: A.Code, j: nat, t: nat)
    requires Ready(a, k, prog, code, j) && b == Start(a, prog, code, j)
    ensures var whole, end := Whole(a, b, k, code, j), A.Pc(b.loops.end[k], false);
      L.LeadsTo(a, prog, code, 0, whole + A.Walk(code, end, t), A.WalkPc(code, end, t), Counted(b.loops, k, 0))
  {
    WholeLeads(a, b, k, prog, code, j);
    BeyondLeads(a, b, k, prog, code, Whole(a, b, k, code, j), t);
  }

  lemma LeftAt(b: L.At, k: nat, prog: L.Program, code: A.Code, i: nat, t: nat)
    requires AtStart(b, k, code) && L.Plainly(prog, i) && t < |Loop(b, k, code)|
    ensures L.Steps(b, prog, code, i, t).loops.count[k] > 0
  {
    LoopCounts(b, k, prog, code, i);
    KeptAt(b, L.Stepper(prog, code), L.LeftOk(k), L.From(i), |Loop(b, k, code)|, t);
  }

  /** Iterations are left from the start to the end of the last one. */
  lemma LeftInLoop(a: L.At, b: L.At, k: nat, prog: L.Program, code: A.Code, j: nat, r: nat)
    requires Ready(a, k, prog, code, j) && b == Start(a, prog, code, j) && j <= r < j + |Loop(b, k, code)|
    ensures L.Steps(a, prog, code, 0, r).loops.count[k] > 0
  {
    LeftAt(b, k, prog, code, j, r - j);
    L.StepsSplit(a, prog, code, 0, j, j, r - j);
  }

  /** What has been executed is part of the whole, or it and the code from the end; from the
      loop's start on the counter is 0 exactly when the last iteration is over. */
  predicate Looped(done: seq<A.Insn>, l: H.Pair, a: L.At, b: L.At, k: nat, code: A.Code, j: nat)
    requires Active(b.loops, k)
  {
    var whole := Whole(a, b, k, code, j);
    && (|done| >= j ==> (l.count[k] == 0 <==> |done| >= |whole|))
    && (if |done| < |whole| then done <= whole
        else done == whole + A.Walk(code, A.Pc(b.loops.end[k], false), |done| - |whole|))
  }

  lemma OrderWithin(a: L.At, b: L.At, k: nat, prog: L.Program, code: A.Code, j: nat, r: nat)
    requires Ready(a, k, prog, code, j) && b == Start(a, prog, code, j) && r < |Whole(a, b, k, code, j)|
    ensures L.Trace(a, prog, code, 0, r) == Whole(a, b, k, code, j)[..r]
  {
    var whole := Whole(a, b, k, code, j);
    WholeLeads(a, b, k, prog, code, j);
    L.LeadsFirst(a, prog, code, 0, whole, L.Steps(a, prog, code, 0, |whole|), r);
  }

  lemma OrderBeyond(a: L.At, b: L.At, k: nat, prog: L.Program, code: A.Code, j: nat, r: nat)
    requires Ready(a, k, prog, code, j) && b == Start(a, prog, code, j) && r >= |Whole(a, b, k, code, j)|
    ensures var whole := Whole(a, b, k, code, j);
      L.Trace(a, prog, code, 0, r) == whole + A.Walk(code, A.Pc(b.loops.end[k], false), r - |whole|)
    ensures L.Steps(a, prog, code, 0, r).loops == Counted(b.loops, k, 0) && L.SoundFor(a, prog, code, 0, r)
  {
    var whole, end := Whole(a, b, k, code, j), A.Pc(b.loops.end[k], false);
    var t: nat := r - |whole|;
    BeyondWhole(a, b, k, prog, code, j, t);
    L.LeadsMeans(a, prog, code, 0, whole + A.Walk(code, end, t), A.WalkPc(code, end, t), Counted(b.loops, k, 0), r);
  }

  lemma LoopedWithin(done: seq<A.Insn>, l: H.Pair, a: L.At, b: L.At, k: nat, code: A.Code, j: nat)
    requires Active(b.loops, k) && |done| < |Whole(a, b, k, code, j)| && done == Whole(a, b, k, code, j)[..|done|]
    requires |done| >= j ==> l.count[k] > 0
    ensures Looped(done, l, a, b, k, code, j)
  {
  }

  lemma LoopedBeyond(done: seq<A.Insn>, l: H.Pair, a: L.At, b: L.At, k: nat, code: A.Code, j: nat)
    requires Active(b.loops, k) && |done| >= |Whole(a, b, k, code, j)| && l == Counted(b.loops, k, 0)
    requires var whole := Whole(a, b, k, code, j);
      done == whole + A.Walk(code, A.Pc(b.loops.end[k], false), |done| - |whole|)
    ensures Looped(done, l, a, b, k, code, j)
  {
  }

  lemma OrderIsLooped(a: L.At, b: L.At, k: nat, prog: L.Program, code: A.Code, j: nat, r: nat)
    requires Ready(a, k, prog, code, j) && b == Start(a, prog, code, j)
    ensures Looped(L.Trace(a, prog, code, 0, r), L.Steps(a, prog, code, 0, r).loops, a, b, k, code, j)
  {
    var done, l := L.Trace(a, prog, code, 0, r), L.Steps(a, prog, code, 0, r).loops;
    if r < |Whole(a, b, k, code, j)| {
      OrderWithin(a, b, k, prog, code, j, r);
      if r >= j { LeftInLoop(a, b, k, prog, code, j, r); }
      LoopedWithin(done, l, a, b, k, code, j);
    } else {
      OrderBeyond(a, b, k, prog, code, j, r);
      LoopedBeyond(done, l, a, b, k, code, j);
    }
  }

  // ------------------------------------------------------------------- in the hardware

  lemma AgreeingIsLooped(done: seq<A.Insn>, l: H.Pair, a: L.At, b: L.At, k: nat, prog: L.Program, code: A.Code, j: nat,
                         m: nat)
    requires Ready(a, k, prog, code, j) && b == Start(a, prog, code, j)
    requires S.Agrees(done, l, a, prog, code, m) && |done| <= m
    ensures Looped(done, l, a, b, k, code, j)
  {
    OrderIsLooped(a, b, k, prog, code, j, |done|);
  }

  lemma SoundEnough(a: L.At, b: L.At, k: nat, prog: L.Program, code: A.Code, j: nat, m: nat)
    requires Ready(a, k, prog, code, j) && b == Start(a, prog, code, j)
    ensures L.SoundFor(a, prog, code, 0, m)
  {
    var all := |Whole(a, b, k, code, j)| + m;
    OrderBeyond(a, b, k, prog, code, j, all);
    KeptPrefix(a, L.Stepper(prog, code), L.Ok(prog, code), L.From(0), all, m);
  }

  /** Under every pattern of stalls and fetch gaps, in either state of the controller, ID
      empty or not, whatever instructions set the loop up and in which order, with code of
      both lengths outside the body: what leaves ID is the code up to the body, the body
      exactly as often as the counter says, then the code from the end address; from the
      start on the counter is 0 exactly when the last iteration is over. */
  lemma LoopRunsExactly(s: S.Sys, env: nat -> S.Env, a: L.At, k: nat, prog: L.Program, code: A.Code, j: nat, n: nat)
    requires S.Entering(s, a, code) && Ready(a, k, prog, code, j)
    ensures var t := Run(s, S.Stepper(code, prog), env, n);
      Looped(t.retired, t.loops, a, Start(a, prog, code, j), k, code, j)
  {
    var t, b := Run(s, S.Stepper(code, prog), env, n), Start(a, prog, code, j);
    SoundEnough(a, b, k, prog, code, j, |t.retired|);
    S.RunsInOrder(s, env, a, prog, code, |t.retired|, n);
    AgreeingIsLooped(t.retired, t.loops, a, b, k, prog, code, j, |t.retired|);
  }

  // ------------------------------------------------------------------------ lost cycles

  /** A body of three instructions whose second the other loop's stale end address follows. */
  predicate StaleEndInside(l: H.Pair, k: nat)
    requires k < 2
  {
    l.end[1 - k] == l.start[k] + 2 && l.end[k] == l.start[k] + 3
  }

  /** Entered like this, the loop's first jump back is a branch. */
  predicate LateBranch(a: L.At, k: nat)
    requires k < 2
  {
    a.fsm == H.Decode && a.loops.count[k] > 1 && StaleEndInside(a.loops, k)
  }

  /** An instruction that goes back meets DECODE only if `may` says so. */
  function BranchOk(may: bool): (L.At, nat) -> bool {
    (a: L.At, n: nat) => S.Branching(a, L.Executes(L.NoWrite())) ==> may
  }

  lemma BranchWithin(x: L.At, l: H.Pair, k: nat, q: nat, c: nat, d: bool)
    requires Within(x, l, k, q, c, d) && S.Branching(x, L.Executes(L.NoWrite()))
    ensures d && c > 1 && StaleEndInside(l, k)
  {
  }

  /** In the loop, only if it was entered in DECODE, with a stale end inside. */
  lemma LoopBranches(b: L.At, k: nat, prog: L.Program, code: A.Code, i: nat)
    requires AtStart(b, k, code) && L.Plainly(prog, i)
    ensures Kept(b, L.Stepper(prog, code), BranchOk(LateBranch(b, k)), L.From(i), |Loop(b, k, code)|)
  {
    var l, start, end, c, d := b.loops, b.loops.start[k], b.loops.end[k], b.loops.count[k], b.fsm == H.Decode;
    var ok := BranchOk(LateBranch(b, k));
    CountKept(l, k);
    forall x, q: nat, left: nat, n | left <= c && Within(x, l, k, q, left, d) ensures ok(x, n) {
      if S.Branching(x, L.Executes(L.NoWrite())) { BranchWithin(x, l, k, q, left, d); }
    }
    RemainingKept(b, l, k, start, c, d, prog, code, i, ok);
    RemainingIsBody(code, start, end, start, c);
  }

  lemma NoBranchBeyond(a: L.At, b: L.At, k: nat, prog: L.Program, code: A.Code, j: nat, r: nat)
    requires Ready(a, k, prog, code, j) && b == Start(a, prog, code, j) && S.JumpFree(prog)
    requires r >= |Whole(a, b, k, code, j)|
    ensures !S.BranchesAt(a, prog, code, r)
  {
    OrderBeyond(a, b, k, prog, code, j, r);
  }

  lemma BranchInBody(b: L.At, k: nat, prog: L.Program, code: A.Code, i: nat, t: nat)
    requires AtStart(b, k, code) && L.Plainly(prog, i) && t < |Loop(b, k, code)|
    requires S.Branching(L.Steps(b, prog, code, i, t), L.Executes(L.NoWrite()))
    ensures LateBranch(b, k)
  {
    LoopBranches(b, k, prog, code, i);
    KeptAt(b, L.Stepper(prog, code), BranchOk(LateBranch(b, k)), L.From(i), |Loop(b, k, code)|, t);
  }

  lemma PlainBranch(a: L.At, prog: L.Program, code: A.Code, j: nat, r: nat, x: L.At)
    requires L.Plainly(prog, j) && r >= j && S.BranchesAt(a, prog, code, r) && x == L.Steps(a, prog, code, 0, r)
    ensures S.Branching(x, L.Executes(L.NoWrite()))
  {
  }

  lemma BranchInLoop(a: L.At, b: L.At, k: nat, prog: L.Program, code: A.Code, j: nat, r: nat)
    requires Ready(a, k, prog, code, j) && b == Start(a, prog, code, j) && j <= r < j + |Loop(b, k, code)|
    requires S.BranchesAt(a, prog, code, r)
    ensures LateBranch(b, k)
  {
    var t := r - j;
    L.StepsSplit(a, prog, code, 0, j, j, t);
    PlainBranch(a, prog, code, j, r, L.Steps(b, prog, code, j, t));
    BranchInBody(b, k, prog, code, j, t);
  }

  /** Two steps on, the controller still in DECODE. */
  lemma LateBranchTaken(b: L.At, k: nat, act: L.Action, code: A.Code)
    requires Active(b.loops, k) && LateBranch(b, k) && b.pc == A.Pc(b.loops.start[k], false)
    requires Uncompressed(code, b.loops.start[k], b.loops.end[k]) && act == L.Executes(L.NoWrite())
    ensures S.Branching(L.After(L.After(b, act, code), act, code), act)
  {
    var l, start, c := b.loops, b.loops.start[k], b.loops.count[k];
    var b1 := L.After(b, act, code);
    CountKept(l, k);
    BodyStep(b, l, k, start, c, true, code);
    BodyStep(b1, l, k, start + 1, c, true, code);
  }

  lemma LateBranchFound(a: L.At, b: L.At, k: nat, prog: L.Program, code: A.Code, j: nat)
    requires Ready(a, k, prog, code, j) && b == Start(a, prog, code, j) && LateBranch(b, k)
    ensures S.BranchesAt(a, prog, code, j + 2)
  {
    LateBranchTaken(b, k, L.Executes(L.NoWrite()), code);
    L.NextStep(a, prog, code, 0, j);
    L.NextStep(a, prog, code, 0, j + 1);
  }

  lemma BranchesIff(a: L.At, b: L.At, k: nat, prog: L.Program, code: A.Code, j: nat)
    requires Ready(a, k, prog, code, j) && b == Start(a, prog, code, j) && S.JumpFree(prog)
    ensures (exists r: nat :: S.BranchesAt(a, prog, code, r)) <==> LateBranch(b, k)
  {
    if r: nat :| S.BranchesAt(a, prog, code, r) {
      if r < j { S.CalmNeverBranches(a, prog, code, j, r); }
      else if r >= |Whole(a, b, k, code, j)| { NoBranchBeyond(a, b, k, prog, code, j, r); }
      else { BranchInLoop(a, b, k, prog, code, j, r); }
    }
    if LateBranch(b, k) { LateBranchFound(a, b, k, prog, code, j); }
  }

  lemma AllSound(a: L.At, b: L.At, k: nat, prog: L.Program, code: A.Code, j: nat)
    requires Ready(a, k, prog, code, j) && b == Start(a, prog, code, j)
    ensures S.AllSound(a, prog, code)
  {
    forall m: nat ensures L.SoundFor(a, prog, code, 0, m) {
      SoundEnough(a, b, k, prog, code, j, m);
    }
  }

  /** Some pattern of gaps and stalls loses a cycle exactly if the loop has more than one
      iteration and a stale end address inside its body, and the controller comes to its
      start in DECODE. */
  lemma CycleLostIff(s: S.Sys, a: L.At, k: nat, prog: L.Program, code: A.Code, j: nat)
    requires S.Entering(s, a, code) && s.al.state != A.BranchMisaligned
    requires Ready(a, k, prog, code, j) && S.JumpFree(prog)
    ensures (exists env: nat -> S.Env, n: nat :: S.CycleLost(s, env, code, prog, n))
       <==> LateBranch(Start(a, prog, code, j), k)
  {
    var b := Start(a, prog, code, j);
    AllSound(a, b, k, prog, code, j);
    S.CycleLostIff(s, a, prog, code);
    BranchesIff(a, b, k, prog, code, j);
  }

  lemma FirstTwoStay(a: L.At, k: nat, prog: L.Program, code: A.Code)
    requires Ready(a, k, prog, code, 0) && S.JumpFree(prog)
    ensures !S.BranchesAt(a, prog, code, 0) && !S.BranchesAt(a, prog, code, 1)
  {
    assert Start(a, prog, code, 0) == a;
    CountKept(a.loops, k);
    BodyStep(a, a.loops, k, a.loops.start[k], a.loops.count[k], true, code);
    L.NextStep(a, prog, code, 0, 0);
  }

  lemma ThirdBranches(a: L.At, k: nat, prog: L.Program, code: A.Code)
    requires Ready(a, k, prog, code, 0) && LateBranch(a, k)
    ensures S.BranchesAt(a, prog, code, 2) && S.AllSound(a, prog, code)
  {
    assert Start(a, prog, code, 0) == a;
    AllSound(a, a, k, prog, code, 0);
    LateBranchFound(a, a, k, prog, code, 0);
  }

  /** The lost cycle: entered like this with the first instruction in ID, without stalls and
      gaps, ID is empty after the third. */
  lemma LostInTheThird(s: S.Sys, a: L.At, k: nat, prog: L.Program, code: A.Code, junk: A.Word)
    requires S.Entering(s, a, code) && s.idValid && s.al.state != A.BranchMisaligned
    requires Ready(a, k, prog, code, 0) && S.JumpFree(prog) && LateBranch(a, k)
    ensures S.CycleLost(s, S.Flowing(junk), code, prog, 2)
  {
    ThirdBranches(a, k, prog, code);
    FirstTwoStay(a, k, prog, code);
    S.FirstLost(s, a, prog, code, junk, 2);
  }
}
