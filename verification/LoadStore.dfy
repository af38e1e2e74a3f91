/** The load/store unit (cv32e40p_load_store_unit) with the stages and the bus around it.

    A 32-bit address is kept as its two slices, the word index [31:2] and the byte
    offset [1:0]; a 32-bit word is kept as its four bytes. */
module LoadStore {
  import opened Runs

  type Byte = x: nat | x < 256

  datatype Word = Word(b0: Byte, b1: Byte, b2: Byte, b3: Byte)

  const WORDS: nat := 0x4000_0000

  type Offset = x: nat | x < 4

  datatype Addr = Addr(index: nat, off: Offset)

  type Address = a: Addr | a.index < WORDS witness Addr(0, 0)

  /** data_type: both byte codes share every branch. */
  datatype DataType = WordType | HalfType | ByteType

  /** data_sign_ext: 00, 10, and the two codes that copy the sign bit. */
  datatype SignExt = WithZeros | WithOnes | WithSign

  datatype Op = Op(we: bool, typ: DataType, sext: SignExt, addr: Address, wdata: Word)

  /** The address four bytes further on, modulo 2^32. */
  function PlusFour(a: Address): (b: Address) {
    Addr(if a.index + 1 == WORDS then 0 else a.index + 1, a.off)
  }

  function Next(a: Address): (b: Address) {
    if a.off < 3 then Addr(a.index, a.off + 1)
    else Addr(if a.index + 1 == WORDS then 0 else a.index + 1, 0)
  }

  // ------------------------------------------------------ the promised meaning

  /** Byte memory; bytes never written read as 0. */
  type Memory = map<Address, Byte>

  function Read(m: Memory, a: Address): Byte { if a in m then m[a] else 0 }

  function Fetch(m: Memory, a: Address, n: nat): (s: seq<Byte>)
    ensures |s| == n
    decreases n
  {
    if n == 0 then [] else [Read(m, a)] + Fetch(m, Next(a), n - 1)
  }

  function Store(m: Memory, a: Address, bytes: seq<Byte>): Memory
    decreases |bytes|
  {
    if bytes == [] then m else Store(m[a := bytes[0]], Next(a), bytes[1..])
  }

  function Size(typ: DataType): (n: nat)
    ensures 1 <= n <= 4
  {
    match typ case WordType => 4 case HalfType => 2 case ByteType => 1
  }

  /** The bytes as a register value, extended above as asked. */
  function Extend(bytes: seq<Byte>, sext: SignExt): Word
    requires 1 <= |bytes| <= 4
  {
    var fill: Byte := match sext
      case WithZeros => 0
      case WithOnes => 255
      case WithSign => if bytes[|bytes| - 1] >= 128 then 255 else 0;
    Word(bytes[0], if |bytes| > 1 then bytes[1] else fill,
         if |bytes| > 2 then bytes[2] else fill, if |bytes| > 3 then bytes[3] else fill)
  }

  function Bytes(w: Word): (s: seq<Byte>)
    ensures |s| == 4
  {
    [w.b0, w.b1, w.b2, w.b3]
  }

  /** One access to byte memory, little endian, at any address. */
  function Loaded(m: Memory, op: Op): Word { Extend(Fetch(m, op.addr, Size(op.typ)), op.sext) }

  function Stored(m: Memory, op: Op): Memory { Store(m, op.addr, Bytes(op.wdata)[..Size(op.typ)]) }

  /** Running accesses one after the other: final memory and the loads' results. */
  datatype Outcome = Outcome(mem: Memory, results: seq<Word>)

  function Execute(o: Outcome, op: Op): Outcome {
    if op.we then Outcome(Stored(o.mem, op), o.results)
    else Outcome(o.mem, o.results + [Loaded(o.mem, op)])
  }

  function InOrder(m: Memory, ops: seq<Op>): Outcome {
    if ops == [] then Outcome(m, []) else Execute(InOrder(m, ops[..|ops| - 1]), ops[|ops| - 1])
  }

  // ------------------------------------------------------- the unit's datapath

  datatype Enables = Enables(e0: bool, e1: bool, e2: bool, e3: bool)

  function ByteEnables(typ: DataType, misalignedSt: bool, off: Offset): Enables {
    match typ
    case WordType =>
      if !misalignedSt then
        if off == 0 then Enables(true, true, true, true)
        else if off == 1 then Enables(false, true, true, true)
        else if off == 2 then Enables(false, false, true, true)
        else Enables(false, false, false, true)
      else
        if off == 0 then Enables(false, false, false, false)
        else if off == 1 then Enables(true, false, false, false)
        else if off == 2 then Enables(true, true, false, false)
        else Enables(true, true, true, false)
    case HalfType =>
      if !misalignedSt then
        if off == 0 then Enables(true, true, false, false)
        else if off == 1 then Enables(false, true, true, false)
        else if off == 2 then Enables(false, false, true, true)
        else Enables(false, false, false, true)
      else Enables(true, false, false, false)
    case ByteType =>
      if off == 0 then Enables(true, false, false, false)
      else if off == 1 then Enables(false, true, false, false)
      else if off == 2 then Enables(false, false, true, false)
      else Enables(false, false, false, true)
  }

  /** data_wdata: the register rotated left by wdata_offset bytes. */
  function Rotate(d: Word, wdataOffset: Offset): Word {
    if wdataOffset == 0 then d
    else if wdataOffset == 1 then Word(d.b3, d.b0, d.b1, d.b2)
    else if wdataOffset == 2 then Word(d.b2, d.b3, d.b0, d.b1)
    else Word(d.b1, d.b2, d.b3, d.b0)
  }

  /** data_addr_int[1:0] - data_reg_offset_ex_i, in two bits. */
  function WdataOffset(off: Offset, regOffset: Offset): Offset {
    if off >= regOffset then off - regOffset else off + 4 - regOffset
  }

  /** EX-stage and bus inputs of one cycle. */
  datatype In = In(req: bool, we: bool, typ: DataType, sext: SignExt, addr: Address, regOffset: Offset,
                   wdata: Word, misalignedEx: bool, gnt: bool, rvalid: bool, rdata: Word)

  datatype Regs = Regs(cnt: nat, typ: DataType, off: Offset, sext: SignExt, we: bool, rdata: Word)

  datatype Request = Request(index: nat, we: bool, be: Enables, wdata: Word)

  /** The bus request; the bus looks at the word index and the byte enables. */
  function BusRequest(i: In): Request {
    Request(i.addr.index, i.we, ByteEnables(i.typ, i.misalignedEx, i.addr.off),
            Rotate(i.wdata, WdataOffset(i.addr.off, i.regOffset)))
  }

  function ExtendHalf(lo: Byte, hi: Byte, sext: SignExt): Word {
    match sext
    case WithZeros => Word(lo, hi, 0, 0)
    case WithOnes => Word(lo, hi, 255, 255)
    case WithSign => if hi >= 128 then Word(lo, hi, 255, 255) else Word(lo, hi, 0, 0)
  }

  function ExtendByte(b: Byte, sext: SignExt): Word {
    match sext
    case WithZeros => Word(b, 0, 0, 0)
    case WithOnes => Word(b, 255, 255, 255)
    case WithSign => if b >= 128 then Word(b, 255, 255, 255) else Word(b, 0, 0, 0)
  }

  /** data_rdata_ext, from the WB registers and the response. */
  function RdataExt(r: Regs, resp: Word): Word {
    match r.typ
    case WordType =>
      if r.off == 0 then resp
      else if r.off == 1 then Word(r.rdata.b1, r.rdata.b2, r.rdata.b3, resp.b0)
      else if r.off == 2 then Word(r.rdata.b2, r.rdata.b3, resp.b0, resp.b1)
      else Word(r.rdata.b3, resp.b0, resp.b1, resp.b2)
    case HalfType =>
      if r.off == 0 then ExtendHalf(resp.b0, resp.b1, r.sext)
      else if r.off == 1 then ExtendHalf(resp.b1, resp.b2, r.sext)
      else if r.off == 2 then ExtendHalf(resp.b2, resp.b3, r.sext)
      else ExtendHalf(r.rdata.b3, resp.b0, r.sext)
    case ByteType =>
      if r.off == 0 then ExtendByte(resp.b0, r.sext)
      else if r.off == 1 then ExtendByte(resp.b1, r.sext)
      else if r.off == 2 then ExtendByte(resp.b2, r.sext)
      else ExtendByte(resp.b3, r.sext)
  }

  predicate MisalignedOut(i: In) {
    i.req && !i.misalignedEx
    && ((i.typ == WordType && i.addr.off != 0) || (i.typ == HalfType && i.addr.off == 3))
  }

  // ---------------------------------------------------------- the unit's control

  predicate TransValid(r: Regs, i: In, pulpObi: bool) {
    if pulpObi && r.cnt != 0 then i.req && r.cnt < 2 && i.rvalid else i.req && r.cnt < 2
  }

  predicate ReadyWb(r: Regs, i: In) { r.cnt == 0 || i.rvalid }

  predicate ReadyEx(r: Regs, i: In, pulpObi: bool) {
    if !i.req then true
    else if r.cnt == 0 then TransValid(r, i, pulpObi) && i.gnt
    else if r.cnt == 1 then i.rvalid && TransValid(r, i, pulpObi) && i.gnt
    else i.rvalid
  }

  /** The two-bit counter. */
  function NextCnt(cnt: nat, up: bool, down: bool): nat {
    if up == down then cnt
    else if up then (if cnt >= 3 then 0 else cnt + 1)
    else (if cnt == 0 then 3 else cnt - 1)
  }

  function NextRegs(r: Regs, i: In, pulpObi: bool): Regs {
    var update := ReadyEx(r, i, pulpObi) && i.req;
    Regs(NextCnt(r.cnt, TransValid(r, i, pulpObi) && i.gnt, i.rvalid),
         if update then i.typ else r.typ,
         if update then i.addr.off else r.off,
         if update then i.sext else r.sext,
         if update then i.we else r.we,
         if i.rvalid && !r.we then
           if i.misalignedEx || MisalignedOut(i) then i.rdata else RdataExt(r, i.rdata)
         else r.rdata)
  }

  /** The unit: its registers and clocked processes. */
  class LoadStoreUnit {
    const pulpObi: bool
    var cntQ: nat
    var dataTypeQ: DataType
    var rdataOffsetQ: Offset
    var dataSignExtQ: SignExt
    var dataWeQ: bool
    var rdataQ: Word

    function Registers(): Regs
      reads this
    {
      Regs(cntQ, dataTypeQ, rdataOffsetQ, dataSignExtQ, dataWeQ, rdataQ)
    }

    /** Reset. */
    constructor (pulpObi: bool)
      ensures this.pulpObi == pulpObi
      ensures Registers() == Regs(0, WordType, 0, WithZeros, false, Word(0, 0, 0, 0))
    {
      this.pulpObi := pulpObi;
      cntQ, dataTypeQ, rdataOffsetQ, dataSignExtQ := 0, WordType, 0, WithZeros;
      dataWeQ, rdataQ := false, Word(0, 0, 0, 0);
    }

    /** One rising clock edge, with the outputs of the cycle it ends. */
    method Clock(i: In) returns (valid: bool, misaligned: bool, readyEx: bool, readyWb: bool, rdata: Word)
      modifies this
      ensures Registers() == NextRegs(old(Registers()), i, pulpObi)
      ensures valid == TransValid(old(Registers()), i, pulpObi) && misaligned == MisalignedOut(i)
      ensures readyEx == ReadyEx(old(Registers()), i, pulpObi)
      ensures readyWb == ReadyWb(old(Registers()), i)
      ensures rdata == if i.rvalid then RdataExt(old(Registers()), i.rdata) else old(rdataQ)
    {
      var r := Registers();
      valid, readyEx, readyWb := TransValid(r, i, pulpObi), ReadyEx(r, i, pulpObi), ReadyWb(r, i);
      misaligned := MisalignedOut(i);
      rdata := if i.rvalid then RdataExt(r, i.rdata) else rdataQ;
      var countUp := valid && i.gnt;
      if countUp && !i.rvalid {
        cntQ := cntQ + 1;
      } else if !countUp && i.rvalid {
        cntQ := if cntQ == 0 then 3 else cntQ - 1;
      }
      if i.rvalid && !r.we {
        if i.misalignedEx || misaligned { rdataQ := i.rdata; } else { rdataQ := rdata; }
      }
      if readyEx && i.req {
        dataTypeQ, rdataOffsetQ, dataSignExtQ, dataWeQ := i.typ, i.addr.off, i.sext, i.we;
      }
    }
  }

  // ----------------------------------------- the unit between EX, WB and the bus

  /** One bus transfer of an access. */
  datatype Xfer = Xfer(op: Op, second: bool)

  /** A second transfer is needed. */
  predicate Splits(op: Op) {
    (op.typ == WordType && op.addr.off != 0) || (op.typ == HalfType && op.addr.off == 3)
  }

  predicate Final(x: Xfer) { x.second || !Splits(x.op) }

  /** What the ID/EX registers hold: a request or not, and in the second phase of a
      split access the address advanced by four. */
  datatype Ex = Ex(req: bool, xfer: Xfer)

  function XferAddr(x: Xfer): Address { if x.second then PlusFour(x.op.addr) else x.op.addr }

  datatype Option<T> = None | Some(value: T)

  /** The environment's choices in one cycle; `junk` fills bytes the bus leaves undefined,
      `next` is what enters EX if it can. */
  datatype Env = Env(gnt: bool, rvalid: bool, junk: Word, next: Option<Op>)

  /** Granted and not yet answered, with the word read at the grant. */
  datatype Pending = Pending(xfer: Xfer, word: Word)

  datatype Sys = Sys(lsu: Regs, ex: Ex, mem: Memory, pending: seq<Pending>,
                     ops: seq<Op>, granted: seq<Xfer>, results: seq<Word>)

  /** Responses come only for granted transfers. */
  predicate Allowed(s: Sys, e: Env) { e.rvalid ==> s.pending != [] }

  function Inputs(x: Xfer, req: bool, gnt: bool, rvalid: bool, rdata: Word): In {
    In(req, x.op.we, x.op.typ, x.op.sext, XferAddr(x), 0, x.op.wdata, req && x.second, gnt, rvalid, rdata)
  }

  function LsuIn(s: Sys, e: Env): In {
    Inputs(s.ex.xfer, s.ex.req, e.gnt, e.rvalid, if s.pending != [] then s.pending[0].word else e.junk)
  }

  function XferRequest(x: Xfer): Request { BusRequest(Inputs(x, true, false, false, Word(0, 0, 0, 0))) }

  function WriteBus(m: Memory, q: Request): Memory
    requires q.index < WORDS
  {
    if !q.we then m else
    var m0 := if q.be.e0 then m[Addr(q.index, 0) := q.wdata.b0] else m;
    var m1 := if q.be.e1 then m0[Addr(q.index, 1) := q.wdata.b1] else m0;
    var m2 := if q.be.e2 then m1[Addr(q.index, 2) := q.wdata.b2] else m1;
    if q.be.e3 then m2[Addr(q.index, 3) := q.wdata.b3] else m2
  }

  /** The bus answers only the enabled bytes. */
  function ReadBus(m: Memory, q: Request, junk: Word): Word
    requires q.index < WORDS
  {
    Word(if q.be.e0 then Read(m, Addr(q.index, 0)) else junk.b0,
         if q.be.e1 then Read(m, Addr(q.index, 1)) else junk.b1,
         if q.be.e2 then Read(m, Addr(q.index, 2)) else junk.b2,
         if q.be.e3 then Read(m, Addr(q.index, 3)) else junk.b3)
  }

  /** EX moves on: into the second phase where the unit finds the access misaligned, or to
      the next instruction. */
  function NextEx(ex: Ex, ready: bool, misaligned: bool, next: Option<Op>): Ex {
    if !ready then ex
    else if misaligned then Ex(true, Xfer(ex.xfer.op, true))
    else match next
      case Some(op) => Ex(true, Xfer(op, false))
      case None => Ex(false, ex.xfer)
  }

  predicate Enters(ready: bool, misaligned: bool, next: Option<Op>) { ready && !misaligned && next.Some? }

  function Accepts(s: Sys, e: Env, pulpObi: bool): bool {
    TransValid(s.lsu, LsuIn(s, e), pulpObi) && e.gnt
  }

  predicate ExReady(s: Sys, e: Env, pulpObi: bool) {
    ReadyEx(s.lsu, LsuIn(s, e), pulpObi) && ReadyWb(s.lsu, LsuIn(s, e))
  }

  /** A load's register value is delivered with the response to its last transfer. */
  function Delivered(s: Sys, e: Env): seq<Word> {
    if e.rvalid && s.pending != [] && Final(s.pending[0].xfer) && !s.pending[0].xfer.op.we
    then [RdataExt(s.lsu, s.pending[0].word)] else []
  }

  function Tick(s: Sys, e: Env, pulpObi: bool): Sys {
    var accept := Accepts(s, e, pulpObi);
    var ready, misaligned := ExReady(s, e, pulpObi), MisalignedOut(LsuIn(s, e));
    var q := XferRequest(s.ex.xfer);
    var left := if e.rvalid && s.pending != [] then s.pending[1..] else s.pending;
    Sys(NextRegs(s.lsu, LsuIn(s, e), pulpObi),
        NextEx(s.ex, ready, misaligned, e.next),
        if accept then WriteBus(s.mem, q) else s.mem,
        if accept then left + [Pending(s.ex.xfer, ReadBus(s.mem, q, e.junk))] else left,
        if Enters(ready, misaligned, e.next) then s.ops + [e.next.value] else s.ops,
        if accept then s.granted + [s.ex.xfer] else s.granted,
        s.results + Delivered(s, e))
  }

  // --------------------------------------------- transfers against byte memory

  predicate AgreesOn(e: Enables, w: Word, m: Memory, index: nat)
    requires index < WORDS
  {
    && (e.e0 ==> w.b0 == Read(m, Addr(index, 0))) && (e.e1 ==> w.b1 == Read(m, Addr(index, 1)))
    && (e.e2 ==> w.b2 == Read(m, Addr(index, 2))) && (e.e3 ==> w.b3 == Read(m, Addr(index, 3)))
  }

  /** w holds the bytes of the first transfer of a split load. */
  predicate HoldsFirst(w: Word, op: Op, m: Memory) {
    AgreesOn(ByteEnables(op.typ, false, op.addr.off), w, m, op.addr.index)
  }

  function RegsFor(x: Xfer, cnt: nat, rdata: Word): Regs {
    Regs(cnt, x.op.typ, x.op.addr.off, x.op.sext, x.op.we, rdata)
  }

  /** What the response to a transfer delivers to the register file. */
  function Due(x: Xfer, rdata: Word, word: Word): seq<Word> {
    if x.op.we || !Final(x) then [] else [RdataExt(RegsFor(x, 1, rdata), word)]
  }

  lemma FetchOne(m: Memory, a: Address)
    ensures Fetch(m, a, 1) == [Read(m, a)]
  {
    assert Fetch(m, Next(a), 0) == [];
  }

  lemma FetchTwo(m: Memory, a: Address)
    ensures Fetch(m, a, 2) == [Read(m, a), Read(m, Next(a))]
  {
    FetchOne(m, Next(a));
  }

  lemma FetchFour(m: Memory, a: Address)
    ensures var b := Next(a); var c := Next(b);
      Fetch(m, a, 4) == [Read(m, a), Read(m, b), Read(m, c), Read(m, Next(c))]
  {
    FetchTwo(m, Next(Next(a)));
    assert Fetch(m, Next(a), 3) == [Read(m, Next(a))] + Fetch(m, Next(Next(a)), 2);
  }

  /** The bytes a load needs, from one or two bus words, assembled and extended by the
      unit, are the bytes at its address. */
  lemma LoadWord(op: Op, m: Memory, x: Xfer, q: Word, word: Word)
    requires op.typ == WordType && x.op == op && Final(x) && (x.second ==> Splits(op))
    requires x.second ==> HoldsFirst(q, op, m)
    requires AgreesOn(XferRequest(x).be, word, m, XferRequest(x).index)
    ensures RdataExt(RegsFor(x, 1, q), word) == Loaded(m, op)
  {
    FetchFour(m, op.addr);
  }

  lemma LoadHalf(op: Op, m: Memory, x: Xfer, q: Word, word: Word)
    requires op.typ == HalfType && x.op == op && Final(x) && (x.second ==> Splits(op))
    requires x.second ==> HoldsFirst(q, op, m)
    requires AgreesOn(XferRequest(x).be, word, m, XferRequest(x).index)
    ensures RdataExt(RegsFor(x, 1, q), word) == Loaded(m, op)
  {
    FetchTwo(m, op.addr);
  }

  lemma LoadByte(op: Op, m: Memory, x: Xfer, q: Word, word: Word)
    requires op.typ == ByteType && x.op == op && !x.second
    requires AgreesOn(XferRequest(x).be, word, m, XferRequest(x).index)
    ensures RdataExt(RegsFor(x, 1, q), word) == Loaded(m, op)
  {
    FetchOne(m, op.addr);
  }

  lemma StoreOne(m: Memory, a: Address, x: Byte)
    ensures Store(m, a, [x]) == m[a := x]
  {
    assert [x][1..] == [];
  }

  lemma StoreTwo(m: Memory, a: Address, x: Byte, y: Byte)
    ensures Store(m, a, [x, y]) == m[a := x][Next(a) := y]
  {
    assert [x, y][1..] == [y];
    StoreOne(m[a := x], Next(a), y);
  }

  lemma StoreFour(m: Memory, a: Address, d: Word)
    ensures var b := Next(a); var c := Next(b);
      Store(m, a, Bytes(d)) == m[a := d.b0][b := d.b1][c := d.b2][Next(c) := d.b3]
  {
    var b := Next(a);
    assert Bytes(d)[1..] == [d.b1, d.b2, d.b3] && [d.b1, d.b2, d.b3][1..] == [d.b2, d.b3];
    assert Store(m[a := d.b0], b, [d.b1, d.b2, d.b3]) == Store(m[a := d.b0][b := d.b1], Next(b), [d.b2, d.b3]);
    StoreTwo(m[a := d.b0][b := d.b1], Next(b), d.b2, d.b3);
  }

  /** The bytes a store changes, through one or two bus writes, are the bytes at its
      address. */
  lemma StoreWord(op: Op, m: Memory)
    requires op.typ == WordType && op.we
    ensures var one := WriteBus(m, XferRequest(Xfer(op, false)));
      Stored(m, op) == if Splits(op) then WriteBus(one, XferRequest(Xfer(op, true))) else one
  {
    assert Bytes(op.wdata)[..4] == Bytes(op.wdata);
    StoreFour(m, op.addr, op.wdata);
  }

  lemma StoreHalf(op: Op, m: Memory)
    requires op.typ == HalfType && op.we
    ensures var one := WriteBus(m, XferRequest(Xfer(op, false)));
      Stored(m, op) == if Splits(op) then WriteBus(one, XferRequest(Xfer(op, true))) else one
  {
    var d := op.wdata;
    assert Bytes(d)[..2] == [d.b0, d.b1];
    StoreTwo(m, op.addr, d.b0, d.b1);
  }

  lemma StoreByte(op: Op, m: Memory)
    requires op.typ == ByteType && op.we
    ensures Stored(m, op) == WriteBus(m, XferRequest(Xfer(op, false)))
  {
    assert Bytes(op.wdata)[..1] == [op.wdata.b0];
    StoreOne(m, op.addr, op.wdata.b0);
  }

  /** Memory and the register value once the last transfer of an access is granted. */
  lemma FinalGrant(x: Xfer, base: Memory, mem: Memory, q: Word, junk: Word)
    requires Final(x) && (x.second ==> Splits(x.op))
    requires mem == if x.second then WriteBus(base, XferRequest(Xfer(x.op, false))) else base
    requires x.second && !x.op.we ==> HoldsFirst(q, x.op, base)
    ensures WriteBus(mem, XferRequest(x)) == Execute(Outcome(base, []), x.op).mem
    ensures Due(x, q, ReadBus(mem, XferRequest(x), junk)) == Execute(Outcome(base, []), x.op).results
  {
    var word := ReadBus(mem, XferRequest(x), junk);
    match x.op.typ
    case WordType => if x.op.we { StoreWord(x.op, base); } else { LoadWord(x.op, base, x, q, word); }
    case HalfType => if x.op.we { StoreHalf(x.op, base); } else { LoadHalf(x.op, base, x, q, word); }
    case ByteType => if x.op.we { StoreByte(x.op, base); } else { LoadByte(x.op, base, x, q, word); }
  }

  // --------------------------------------------------------------- the invariant

  function Xfers(op: Op): seq<Xfer> {
    if Splits(op) then [Xfer(op, false), Xfer(op, true)] else [Xfer(op, false)]
  }

  function AllXfers(ops: seq<Op>): seq<Xfer> {
    if ops == [] then [] else AllXfers(ops[..|ops| - 1]) + Xfers(ops[|ops| - 1])
  }

  /** The registers hold the control information of a transfer. */
  predicate Describes(r: Regs, x: Xfer) {
    r.typ == x.op.typ && r.off == x.op.addr.off && r.sext == x.op.sext && r.we == x.op.we
  }

  /** Control: the counter counts the outstanding transfers, the WB registers describe
      the oldest, and with two outstanding the younger is the one still in EX. */
  predicate Control(s: Sys) {
    && s.lsu.cnt == |s.pending| <= 2
    && (s.pending != [] ==> Describes(s.lsu, s.pending[0].xfer))
    && (|s.pending| == 2 ==> s.ex.req && s.pending[1].xfer == s.ex.xfer)
    && (s.ex.req ==> s.ops != [] && s.ops[|s.ops| - 1] == s.ex.xfer.op)
    && (s.ex.req && s.ex.xfer.second ==>
          && Splits(s.ex.xfer.op)
          && (s.pending != [] ==> s.pending[0].xfer == Xfer(s.ex.xfer.op, false)))
  }

  /** The access in EX still needs a grant. */
  predicate Unfinished(s: Sys) { s.ex.req && !(|s.pending| == 2 && Final(s.ex.xfer)) }

  /** Its first transfer is granted, its second not. */
  predicate Half(s: Sys) { Unfinished(s) && (s.ex.xfer.second || |s.pending| == 2) }

  function Finished(s: Sys): seq<Op>
    requires Control(s)
  {
    if Unfinished(s) then s.ops[..|s.ops| - 1] else s.ops
  }

  /** The word a split load's first transfer returned. */
  function FirstWord(s: Sys): Word {
    if s.pending == [] then s.lsu.rdata else s.pending[|s.pending| - 1].word
  }

  function Outstanding(p: seq<Pending>, rdata: Word): seq<Word>
    requires |p| <= 2
  {
    if |p| == 0 then []
    else if |p| == 1 then Due(p[0].xfer, rdata, p[0].word)
    else Due(p[0].xfer, rdata, p[0].word) + Due(p[1].xfer, p[0].word, p[1].word)
  }

  /** Memory, grants and results are those of the accesses whose last transfer is
      granted, executed in order, plus the first half of the one in EX. */
  predicate Meaning(s: Sys, start: Memory)
    requires Control(s)
  {
    var o := InOrder(start, Finished(s));
    var first := Xfer(s.ex.xfer.op, false);
    && s.mem == (if Half(s) then WriteBus(o.mem, XferRequest(first)) else o.mem)
    && s.granted == AllXfers(Finished(s)) + (if Half(s) then [first] else [])
    && s.results + Outstanding(s.pending, s.lsu.rdata) == o.results
    && (Half(s) && !s.ex.xfer.op.we ==> HoldsFirst(FirstWord(s), s.ex.xfer.op, o.mem))
  }

  predicate Inv(s: Sys, start: Memory) { Control(s) && Meaning(s, start) }

  lemma ControlStep(s: Sys, e: Env, pulpObi: bool)
    requires Control(s) && Allowed(s, e)
    ensures Control(Tick(s, e, pulpObi))
  {
  }

  /** Appending an access to an execution. */
  lemma InOrderAppend(start: Memory, ops: seq<Op>, op: Op)
    ensures InOrder(start, ops + [op]) == Execute(InOrder(start, ops), op)
    ensures AllXfers(ops + [op]) == AllXfers(ops) + Xfers(op)
  {
    assert (ops + [op])[..|ops|] == ops;
  }

  /** Without a second phase the value in rdataQ does not matter. */
  lemma DueIgnoresRdata(x: Xfer, q0: Word, q1: Word, word: Word)
    requires !x.second
    ensures Due(x, q0, word) == Due(x, q1, word)
  {
  }

  /** EX holds nothing new, or a new access. */
  predicate MovedOn(s: Sys, t: Sys) {
    if t.ex.req then !t.ex.xfer.second && t.ops == s.ops + [t.ex.xfer.op] else t.ops == s.ops
  }

  lemma MovedOnFinished(s: Sys, t: Sys)
    requires Control(t) && MovedOn(s, t) && |t.pending| < 2
    ensures Finished(t) == s.ops && !Half(t)
  {
  }

  /** Nothing granted, nothing answered: at most an empty EX receives an access. */
  lemma QuietTick(s: Sys, e: Env, pulpObi: bool)
    requires Control(s) && !Accepts(s, e, pulpObi) && !e.rvalid
    ensures var t := Tick(s, e, pulpObi);
      && t.mem == s.mem && t.pending == s.pending && t.granted == s.granted && t.results == s.results
      && t.lsu == s.lsu
      && ((t.ex == s.ex && t.ops == s.ops) || (!s.ex.req && s.pending == [] && MovedOn(s, t)))
  {
  }

  lemma MeaningQuiet(s: Sys, t: Sys, start: Memory)
    requires Inv(s, start) && Control(t)
    requires t.mem == s.mem && t.pending == s.pending && t.granted == s.granted && t.results == s.results
    requires t.lsu == s.lsu
    requires (t.ex == s.ex && t.ops == s.ops) || (!s.ex.req && s.pending == [] && MovedOn(s, t))
    ensures Meaning(t, start)
  {
    if t.ops == s.ops && t.ex == s.ex {
      assert Finished(t) == Finished(s);
    } else {
      MovedOnFinished(s, t);
    }
  }

  /** EX after its transfer left for the bus and WB is free. */
  predicate Advanced(s: Sys, t: Sys) {
    if s.ex.req && !Final(s.ex.xfer) then t.ex == Ex(true, Xfer(s.ex.xfer.op, true)) && t.ops == s.ops
    else MovedOn(s, t)
  }

  /** The oldest transfer is answered: its value is delivered, and a split load's first
      word stays in rdataQ while EX holds the second transfer. */
  predicate Answered(s: Sys, t: Sys)
    requires s.pending != []
  {
    var p := s.pending[0];
    && t.results == s.results + Due(p.xfer, s.lsu.rdata, p.word)
    && (s.ex.req && (s.ex.xfer.second || !Final(s.ex.xfer)) && !p.xfer.op.we ==> t.lsu.rdata == p.word)
  }

  predicate Unanswered(s: Sys, t: Sys) { t.results == s.results && t.lsu.rdata == s.lsu.rdata }

  predicate NotGranted(s: Sys, t: Sys) { t.mem == s.mem && t.granted == s.granted }

  /** The transfer in EX is granted: memory changes and its bytes are read. */
  predicate Granted(s: Sys, t: Sys, junk: Word) {
    var q := XferRequest(s.ex.xfer);
    && t.mem == WriteBus(s.mem, q) && t.granted == s.granted + [s.ex.xfer]
    && t.pending != []
    && t.pending[|t.pending| - 1] == Pending(s.ex.xfer, ReadBus(s.mem, q, junk))
  }

  lemma AnswerTick(s: Sys, e: Env, pulpObi: bool)
    requires Control(s) && Allowed(s, e) && !Accepts(s, e, pulpObi) && e.rvalid
    ensures var t := Tick(s, e, pulpObi);
      && NotGranted(s, t) && Answered(s, t) && t.pending == s.pending[1..]
      && if |s.pending| == 1 && s.ex.req then t.ex == s.ex && t.ops == s.ops else Advanced(s, t)
  {
  }

  lemma MeaningAnswerTwo(s: Sys, t: Sys, start: Memory)
    requires Inv(s, start) && Control(t) && |s.pending| == 2
    requires NotGranted(s, t) && Answered(s, t) && t.pending == s.pending[1..] && Advanced(s, t)
    ensures Meaning(t, start)
  {
    var p0, p1 := s.pending[0], s.pending[1];
    assert t.pending == [p1];
    assert Outstanding(t.pending, t.lsu.rdata) == Due(p1.xfer, p0.word, p1.word) by {
      if !p1.xfer.second { DueIgnoresRdata(p1.xfer, t.lsu.rdata, p0.word, p1.word); }
    }
    if Unfinished(s) { assert Finished(t) == Finished(s); } else { MovedOnFinished(s, t); }
  }

  lemma MeaningAnswerOne(s: Sys, t: Sys, start: Memory)
    requires Inv(s, start) && Control(t) && |s.pending| == 1
    requires NotGranted(s, t) && Answered(s, t) && t.pending == []
    requires if s.ex.req then t.ex == s.ex && t.ops == s.ops else MovedOn(s, t)
    ensures Meaning(t, start)
  {
    if s.ex.req { assert Finished(t) == Finished(s); } else { MovedOnFinished(s, t); }
  }

  /** A grant: EX waits for the older response, or moves on. */
  predicate GrantStep(s: Sys, t: Sys, junk: Word) {
    && s.ex.req && |s.pending| < 2 && Granted(s, t, junk)
    && ((s.pending != [] && Answered(s, t) && |t.pending| == 1)
        || (Unanswered(s, t) && |t.pending| == |s.pending| + 1))
    && (if |t.pending| == 2 then t.pending[0] == s.pending[0] && t.ex == s.ex && t.ops == s.ops
        else Advanced(s, t))
  }

  lemma GrantTick(s: Sys, e: Env, pulpObi: bool)
    requires Control(s) && Allowed(s, e) && Accepts(s, e, pulpObi)
    ensures GrantStep(s, Tick(s, e, pulpObi), e.junk)
  {
  }

  /** A grant adds to what is delivered and outstanding exactly what its transfer is due. */
  lemma GrantDue(s: Sys, t: Sys, junk: Word)
    requires Control(s) && Control(t) && GrantStep(s, t, junk)
    ensures t.results + Outstanding(t.pending, t.lsu.rdata)
         == s.results + Outstanding(s.pending, s.lsu.rdata)
            + Due(s.ex.xfer, FirstWord(s), ReadBus(s.mem, XferRequest(s.ex.xfer), junk))
  {
    var x, word := s.ex.xfer, ReadBus(s.mem, XferRequest(s.ex.xfer), junk);
    if |t.pending| == 1 && |s.pending| == 1 {
      assert Due(x, t.lsu.rdata, word) == Due(x, FirstWord(s), word) by {
        if !x.second { DueIgnoresRdata(x, t.lsu.rdata, FirstWord(s), word); }
      }
    }
  }

  lemma MeaningFirstGrant(s: Sys, t: Sys, junk: Word, start: Memory)
    requires Inv(s, start) && Control(t) && GrantStep(s, t, junk) && !Final(s.ex.xfer)
    ensures Meaning(t, start)
  {
    GrantDue(s, t, junk);
    assert Finished(t) == Finished(s) && Half(t) && !Half(s);
    assert FirstWord(t) == ReadBus(s.mem, XferRequest(s.ex.xfer), junk);
  }

  lemma FinalGrantFinishes(s: Sys, t: Sys, junk: Word)
    requires Control(s) && Control(t) && GrantStep(s, t, junk) && Final(s.ex.xfer)
    ensures Finished(t) == s.ops == Finished(s) + [s.ex.xfer.op]
    ensures !Half(t) && Half(s) == s.ex.xfer.second
    ensures Xfers(s.ex.xfer.op)
         == (if Half(s) then [Xfer(s.ex.xfer.op, false)] else []) + [s.ex.xfer]
  {
    if |t.pending| < 2 { MovedOnFinished(s, t); }
  }

  lemma ExecuteAdds(o: Outcome, op: Op)
    ensures Execute(o, op).mem == Execute(Outcome(o.mem, []), op).mem
    ensures Execute(o, op).results == o.results + Execute(Outcome(o.mem, []), op).results
  {
  }

  lemma MeaningFinalGrant(s: Sys, t: Sys, junk: Word, start: Memory)
    requires Inv(s, start) && Control(t) && GrantStep(s, t, junk) && Final(s.ex.xfer)
    ensures Meaning(t, start)
  {
    var x, before := s.ex.xfer, InOrder(start, Finished(s));
    FinalGrantFinishes(s, t, junk);
    InOrderAppend(start, Finished(s), x.op);
    ExecuteAdds(before, x.op);
    FinalGrant(x, before.mem, s.mem, FirstWord(s), junk);
    assert t.granted == AllXfers(s.ops);
    assert t.results + Outstanding(t.pending, t.lsu.rdata) == InOrder(start, s.ops).results by {
      GrantDue(s, t, junk);
    }
  }

  /** Every step keeps the invariant. */
  lemma InvStep(s: Sys, e: Env, pulpObi: bool, start: Memory)
    requires Inv(s, start) && Allowed(s, e)
    ensures Inv(Tick(s, e, pulpObi), start)
  {
    var t := Tick(s, e, pulpObi);
    ControlStep(s, e, pulpObi);
    if Accepts(s, e, pulpObi) {
      GrantTick(s, e, pulpObi);
      if Final(s.ex.xfer) { MeaningFinalGrant(s, t, e.junk, start); } else { MeaningFirstGrant(s, t, e.junk, start); }
    } else if e.rvalid {
      AnswerTick(s, e, pulpObi);
      if |s.pending| == 2 { MeaningAnswerTwo(s, t, start); } else { MeaningAnswerOne(s, t, start); }
    } else {
      QuietTick(s, e, pulpObi);
      MeaningQuiet(s, t, start);
    }
  }

  // -------------------------------------------------------------------- whole runs

  /** Reset: the unit empty, no request in EX, any memory. */
  function Start(mem: Memory, x: Xfer): Sys {
    Sys(Regs(0, WordType, 0, WithZeros, false, Word(0, 0, 0, 0)), Ex(false, x), mem, [], [], [], [])
  }

  function Stepper(pulpObi: bool): (Sys, Env) -> Sys { (s: Sys, e: Env) => Tick(s, e, pulpObi) }

  /** The bus answers only what it granted, in the first n cycles. */
  predicate BusObeys(s: Sys, env: nat -> Env, pulpObi: bool, n: nat) {
    Kept(s, Stepper(pulpObi), (x: Sys, e: Env) => Allowed(x, e), env, n)
  }

  lemma InvRun(mem: Memory, x: Xfer, env: nat -> Env, pulpObi: bool, n: nat)
    requires BusObeys(Start(mem, x), env, pulpObi, n)
    ensures Inv(Run(Start(mem, x), Stepper(pulpObi), env, n), mem)
  {
    var step, ok := Stepper(pulpObi), (s: Sys, e: Env) => Allowed(s, e);
    forall s, e | Inv(s, mem) && ok(s, e) ensures Inv(step(s, e), mem) { InvStep(s, e, pulpObi, mem); }
    Invariant((s: Sys) => Inv(s, mem), ok, Start(mem, x), step, env, n);
  }

  lemma GrantedPrefix(s: Sys, start: Memory)
    requires Inv(s, start)
    ensures s.granted <= AllXfers(s.ops)
    ensures |AllXfers(s.ops)| - |s.granted| <= (if s.ex.req then 2 else 0)
    ensures s.results <= InOrder(start, s.ops).results
  {
    assert s.results <= InOrder(start, Finished(s)).results;
    if Unfinished(s) {
      InOrderAppend(start, Finished(s), s.ex.xfer.op);
      assert Finished(s) + [s.ex.xfer.op] == s.ops;
    }
  }

  /** At every cycle of every run: at most two transfers are outstanding, the WB registers
      describe the oldest, the younger of two is the one in EX; the bus has accepted the
      transfers of the accesses in order, each once, and the loads so far returned what
      they would have, run one by one. */
  lemma EveryCycle(mem: Memory, x: Xfer, env: nat -> Env, pulpObi: bool, n: nat)
    requires BusObeys(Start(mem, x), env, pulpObi, n)
    ensures var s := Run(Start(mem, x), Stepper(pulpObi), env, n);
      && s.lsu.cnt == |s.pending| <= 2
      && (s.pending != [] ==> Describes(s.lsu, s.pending[0].xfer))
      && (|s.pending| == 2 ==> s.ex.req && s.pending[1].xfer == s.ex.xfer)
      && s.granted <= AllXfers(s.ops)
      && |AllXfers(s.ops)| - |s.granted| <= (if s.ex.req then 2 else 0)
      && s.results <= InOrder(mem, s.ops).results
  {
    InvRun(mem, x, env, pulpObi, n);
    GrantedPrefix(Run(Start(mem, x), Stepper(pulpObi), env, n), mem);
  }

  /** Whenever the unit has drained, under whatever grant and response timing, memory and
      the loads' results are those of the accesses executed one by one on bytes. */
  lemma DrainedIsInOrder(mem: Memory, x: Xfer, env: nat -> Env, pulpObi: bool, n: nat)
    requires BusObeys(Start(mem, x), env, pulpObi, n)
    ensures var s := Run(Start(mem, x), Stepper(pulpObi), env, n);
      !s.ex.req && s.pending == [] ==>
        && s.mem == InOrder(mem, s.ops).mem
        && s.results == InOrder(mem, s.ops).results
        && s.granted == AllXfers(s.ops)
  {
    InvRun(mem, x, env, pulpObi, n);
  }

  /** A bus that grants at once and answers in the next cycle never stalls EX. */
  lemma FastBusNeverStalls(s: Sys, e: Env, pulpObi: bool)
    requires Control(s) && e.gnt && (e.rvalid <==> s.pending != [])
    ensures ExReady(s, e, pulpObi)
  {
  }

  /** When a transfer is requested: while at most one is outstanding, and in the legacy bus
      mode only if that one is answered now. */
  lemma RequestsExactly(s: Sys, e: Env, pulpObi: bool)
    requires Control(s)
    ensures TransValid(s.lsu, LsuIn(s, e), pulpObi) <==>
              s.ex.req && (s.pending == [] || (|s.pending| == 1 && (pulpObi ==> e.rvalid)))
  {
  }

  lemma LegacyStep(s: Sys, e: Env)
    requires Control(s) && Allowed(s, e) && |s.pending| <= 1
    ensures |Tick(s, e, true).pending| <= 1
  {
    RequestsExactly(s, e, true);
  }

  /** So in that mode at most one transfer is outstanding at every cycle of every run. */
  lemma LegacyOneByOne(mem: Memory, x: Xfer, env: nat -> Env, n: nat)
    requires BusObeys(Start(mem, x), env, true, n)
    ensures |Run(Start(mem, x), Stepper(true), env, n).pending| <= 1
  {
    var step, ok := Stepper(true), (s: Sys, e: Env) => Allowed(s, e);
    forall s, e | Control(s) && |s.pending| <= 1 && ok(s, e) ensures Control(step(s, e)) && |step(s, e).pending| <= 1 {
      ControlStep(s, e, true);
      LegacyStep(s, e);
    }
    Invariant((s: Sys) => Control(s) && |s.pending| <= 1, ok, Start(mem, x), step, env, n);
  }

  /** When EX is ready: nothing is outstanding or the response comes, and a request has been
      granted or is granted now. */
  lemma ReadyExactly(s: Sys, e: Env, pulpObi: bool)
    requires Control(s)
    ensures ExReady(s, e, pulpObi) <==>
              (s.pending == [] || e.rvalid) && (s.ex.req ==> |s.pending| == 2 || e.gnt)
  {
  }

  // ------------------------------------------------------------------- completion

  /** The bus answers only what it granted, and the accesses of a list are offered one after
      the other. */
  function Offers(list: seq<Op>): (Sys, Env) -> bool {
    (s: Sys, e: Env) => Allowed(s, e) && e.next == if |s.ops| < |list| then Some(list[|s.ops|]) else None
  }

  /** The bus has a request or an unanswered transfer. */
  predicate Owes(s: Sys, e: Env, pulpObi: bool) { TransValid(s.lsu, LsuIn(s, e), pulpObi) || s.pending != [] }

  /** And neither grants nor answers. */
  function BusIdles(pulpObi: bool): (Sys, Env) -> bool {
    (s: Sys, e: Env) => Owes(s, e, pulpObi) && !Accepts(s, e, pulpObi) && !e.rvalid
  }

  /** Accesses of the list not in EX yet, with the grants and answers they need. */
  function StillToCome(list: seq<Op>, k: nat): nat
    decreases |list| - k
  {
    if k >= |list| then 0 else 1 + 2 * |Xfers(list[k])| + StillToCome(list, k + 1)
  }

  /** The grants and answers the transfer in EX and the one behind it still need. */
  function InEx(s: Sys): nat {
    if !s.ex.req then 0
    else (if |s.pending| == 2 then 0 else 2) + (if Final(s.ex.xfer) then 0 else 2)
  }

  function EventsLeft(s: Sys, list: seq<Op>): nat { StillToCome(list, |s.ops|) + InEx(s) + |s.pending| }

  predicate Underway(s: Sys, list: seq<Op>) { Control(s) && s.ops <= list }

  predicate Drained(s: Sys, list: seq<Op>) { !s.ex.req && s.pending == [] && s.ops == list }

  lemma OpsGrow(s: Sys, e: Env, pulpObi: bool)
    ensures var t := Tick(s, e, pulpObi); t.ops == s.ops || (e.next.Some? && t.ops == s.ops + [e.next.value])
  {
  }

  lemma StaysPrefix(ops: seq<Op>, more: seq<Op>, list: seq<Op>)
    requires ops <= list
    requires more == ops || (|ops| < |list| && more == ops + [list[|ops|]])
    ensures more <= list
  {
  }

  lemma StaysDrained(s: Sys, e: Env, list: seq<Op>, pulpObi: bool)
    requires Control(s) && Offers(list)(s, e) && Drained(s, list)
    ensures Drained(Tick(s, e, pulpObi), list)
  {
  }

  lemma UnderwayStep(s: Sys, e: Env, list: seq<Op>, pulpObi: bool)
    requires Underway(s, list) && Offers(list)(s, e)
    ensures Underway(Tick(s, e, pulpObi), list)
    ensures Drained(s, list) ==> Drained(Tick(s, e, pulpObi), list)
  {
    ControlStep(s, e, pulpObi);
    OpsGrow(s, e, pulpObi);
    StaysPrefix(s.ops, Tick(s, e, pulpObi).ops, list);
    if Drained(s, list) { StaysDrained(s, e, list, pulpObi); }
  }

  /** A grant or an answer brings the end closer, and so does a cycle in which the bus has
      nothing to do; no other cycle takes it further away. */
  lemma EventsStep(s: Sys, e: Env, list: seq<Op>, pulpObi: bool)
    requires Underway(s, list) && Offers(list)(s, e) && !Drained(s, list)
    ensures var t := Tick(s, e, pulpObi);
      if BusIdles(pulpObi)(s, e) then EventsLeft(t, list) <= EventsLeft(s, list)
      else EventsLeft(t, list) < EventsLeft(s, list)
  {
    var t := Tick(s, e, pulpObi);
    ControlStep(s, e, pulpObi);
    ReadyExactly(s, e, pulpObi);
  }

  /** All events of a list. */
  lemma {:induction false} EventsOfList(list: seq<Op>, k: nat)
    requires k <= |list|
    ensures StillToCome(list, k) + k + 2 * |AllXfers(list[..k])| == |list| + 2 * |AllXfers(list)|
    decreases |list| - k
  {
    if k == |list| {
      assert list[..k] == list;
    } else {
      EventsOfList(list, k + 1);
      assert list[..k + 1] == list[..k] + [list[k]];
      InOrderAppend(map[], list[..k], list[k]);
    }
  }

  lemma NearerToDrained(s: Sys, e: Env, list: seq<Op>, pulpObi: bool, bound: nat, wait: nat)
    requires Underway(s, list) && Offers(list)(s, e)
    requires wait <= bound && (BusIdles(pulpObi)(s, e) ==> wait < bound)
    ensures var t := Tick(s, e, pulpObi);
      Drained(t, list) || CyclesLeft(EventsLeft(t, list), bound, NextWait(wait, BusIdles(pulpObi)(s, e)))
                          < CyclesLeft(EventsLeft(s, list), bound, wait)
  {
    UnderwayStep(s, e, list, pulpObi);
    if !Drained(s, list) {
      EventsStep(s, e, list, pulpObi);
      CloserToEnd(EventsLeft(s, list), EventsLeft(Tick(s, e, pulpObi), list), bound, wait, BusIdles(pulpObi)(s, e));
    }
  }

  function Toward(list: seq<Op>): Sys -> bool { (s: Sys) => Underway(s, list) }

  function Finishing(list: seq<Op>): Sys -> bool { (s: Sys) => Drained(s, list) }

  function EventRanks(list: seq<Op>, bound: nat): (Sys, nat, nat) -> nat {
    (s: Sys, w1: nat, w2: nat) => CyclesLeft(EventsLeft(s, list), bound, w1)
  }

  function Bus(pulpObi: bool, bound: nat): Parties<Sys, Env> { Parties(BusIdles(pulpObi), bound, Nobody(), 0) }

  lemma DrainDescends(list: seq<Op>, pulpObi: bool, bound: nat)
    ensures Descends(Toward(list), Finishing(list), EventRanks(list, bound), Stepper(pulpObi), Offers(list),
                     Bus(pulpObi, bound))
  {
    var step, p := Stepper(pulpObi), Bus(pulpObi, bound);
    forall s: Sys, e, w1: nat, w2: nat | Toward(list)(s) && Offers(list)(s, e) && InTime(s, e, p, w1, w2)
      ensures Toward(list)(step(s, e)) && (Drained(s, list) ==> Drained(step(s, e), list))
      ensures Drained(step(s, e), list)
           || RankAfter(EventRanks(list, bound), step(s, e), s, e, p, w1, w2) < EventRanks(list, bound)(s, w1, w2)
    {
      UnderwayStep(s, e, list, pulpObi);
      NearerToDrained(s, e, list, pulpObi, bound, w1);
    }
  }

  lemma StartsUnderway(mem: Memory, x: Xfer, list: seq<Op>, bound: nat)
    ensures Toward(list)(Start(mem, x))
    ensures EventRanks(list, bound)(Start(mem, x), 0, 0) == CyclesFor(|list| + 2 * |AllXfers(list)|, bound)
  {
    EventsOfList(list, 0);
    assert list[..0] == [];
  }

  lemma DrainsInTime(mem: Memory, x: Xfer, list: seq<Op>, env: nat -> Env, pulpObi: bool, bound: nat, n: nat)
    requires Kept(Start(mem, x), Stepper(pulpObi), Offers(list), env, n)
    requires Patient(Start(mem, x), Stepper(pulpObi), BusIdles(pulpObi), env, bound, n)
    requires n > CyclesFor(|list| + 2 * |AllXfers(list)|, bound)
    ensures Drained(Run(Start(mem, x), Stepper(pulpObi), env, n), list)
  {
    StartsUnderway(mem, x, list, bound);
    NobodyWaits(Start(mem, x), Stepper(pulpObi), env, n);
    DrainDescends(list, pulpObi, bound);
    Arrival(Toward(list), Finishing(list), EventRanks(list, bound), Start(mem, x), Stepper(pulpObi), Offers(list),
            Bus(pulpObi, bound), env, n);
  }

  /** Completion. Every access of a list offered enters EX and is carried out, one or two
      transfers each, and the unit drains, all within the number of cycles stated, on every
      bus that, owing a grant or an answer, never lets more than `bound` cycles in a row pass
      without one; then memory and results are those of the list executed on bytes. */
  lemma AllCarriedOut(mem: Memory, x: Xfer, list: seq<Op>, env: nat -> Env, pulpObi: bool, bound: nat, n: nat)
    requires Kept(Start(mem, x), Stepper(pulpObi), Offers(list), env, n)
    requires Patient(Start(mem, x), Stepper(pulpObi), BusIdles(pulpObi), env, bound, n)
    requires n > CyclesFor(|list| + 2 * |AllXfers(list)|, bound)
    ensures var s := Run(Start(mem, x), Stepper(pulpObi), env, n);
      && !s.ex.req && s.pending == [] && s.ops == list && s.granted == AllXfers(list)
      && s.mem == InOrder(mem, list).mem && s.results == InOrder(mem, list).results
  {
    DrainsInTime(mem, x, list, env, pulpObi, bound, n);
    KeptWeaker(Start(mem, x), Stepper(pulpObi), Offers(list), (y: Sys, e: Env) => Allowed(y, e), env, n);
    DrainedIsInOrder(mem, x, env, pulpObi, n);
  }

  // ------------------------------------------------------ what the meaning amounts to

  function Value(a: Address): nat { 4 * a.index + a.off }

  /** Next is the 32-bit successor. */
  lemma NextValue(a: Address)
    ensures Value(Next(a)) == if Value(a) + 1 == 0x1_0000_0000 then 0 else Value(a) + 1
    ensures PlusFour(a) == Next(Next(Next(Next(a))))
  {
  }

  /** A store followed by a load of the same size at any address returns the bytes stored,
      extended. */
  lemma LoadAfterStore(m: Memory, op: Op, sext: SignExt)
    ensures Loaded(Stored(m, op), op.(sext := sext)) == Extend(Bytes(op.wdata)[..Size(op.typ)], sext)
  {
    var a, d := op.addr, op.wdata;
    var b := Next(a);
    match op.typ
    case WordType =>
      assert Bytes(d)[..4] == Bytes(d);
      StoreFour(m, a, d);
      FetchFour(Stored(m, op), a);
    case HalfType =>
      assert Bytes(d)[..2] == [d.b0, d.b1];
      StoreTwo(m, a, d.b0, d.b1);
      FetchTwo(Stored(m, op), a);
    case ByteType =>
      assert Bytes(d)[..1] == [d.b0];
      StoreOne(m, a, d.b0);
      FetchOne(Stored(m, op), a);
  }

  /** The byte a store puts at an address, if it does. */
  function ByteAt(op: Op, b: Address): Option<Byte> {
    var size, next := Size(op.typ), Next(op.addr);
    if !op.we then None
    else if b == op.addr then Some(op.wdata.b0)
    else if size > 1 && b == next then Some(op.wdata.b1)
    else if size > 2 && b == Next(next) then Some(op.wdata.b2)
    else if size > 2 && b == Next(Next(next)) then Some(op.wdata.b3)
    else None
  }

  /** A store changes the bytes it addresses and no others. */
  lemma StoredByte(m: Memory, op: Op, b: Address)
    requires op.we
    ensures Read(Stored(m, op), b) == if ByteAt(op, b).Some? then ByteAt(op, b).value else Read(m, b)
  {
    var a, d := op.addr, op.wdata;
    match op.typ
    case WordType => assert Bytes(d)[..4] == Bytes(d); StoreFour(m, a, d);
    case HalfType => assert Bytes(d)[..2] == [d.b0, d.b1]; StoreTwo(m, a, d.b0, d.b1);
    case ByteType => assert Bytes(d)[..1] == [d.b0]; StoreOne(m, a, d.b0);
  }

  /** The byte at an address after some accesses: from the latest store that wrote it, or
      as it was at the start. */
  function Latest(start: Memory, ops: seq<Op>, b: Address): Byte {
    if ops == [] then Read(start, b)
    else
      var n := |ops| - 1;
      if ByteAt(ops[n], b).Some? then ByteAt(ops[n], b).value else Latest(start, ops[..n], b)
  }

  function LatestBytes(start: Memory, ops: seq<Op>, a: Address, n: nat): (s: seq<Byte>)
    ensures |s| == n
    decreases n
  {
    if n == 0 then [] else [Latest(start, ops, a)] + LatestBytes(start, ops, Next(a), n - 1)
  }

  /** What each load of the accesses sees: the latest bytes at its address, extended. */
  function LatestLoads(start: Memory, ops: seq<Op>): seq<Word> {
    if ops == [] then []
    else
      var n := |ops| - 1;
      var before, op := ops[..n], ops[n];
      LatestLoads(start, before)
      + (if op.we then [] else [Extend(LatestBytes(start, before, op.addr, Size(op.typ)), op.sext)])
  }

  lemma {:induction false} InOrderLatest(start: Memory, ops: seq<Op>, b: Address)
    ensures Read(InOrder(start, ops).mem, b) == Latest(start, ops, b)
  {
    if ops != [] {
      var n := |ops| - 1;
      InOrderLatest(start, ops[..n], b);
      if ops[n].we { StoredByte(InOrder(start, ops[..n]).mem, ops[n], b); }
    }
  }

  lemma {:induction false} FetchLatest(start: Memory, ops: seq<Op>, a: Address, n: nat)
    ensures Fetch(InOrder(start, ops).mem, a, n) == LatestBytes(start, ops, a, n)
    decreases n
  {
    if n > 0 {
      InOrderLatest(start, ops, a);
      FetchLatest(start, ops, Next(a), n - 1);
    }
  }

  lemma {:induction false} ResultsLatest(start: Memory, ops: seq<Op>)
    ensures InOrder(start, ops).results == LatestLoads(start, ops)
  {
    if ops != [] {
      var n := |ops| - 1;
      ResultsLatest(start, ops[..n]);
      FetchLatest(start, ops[..n], ops[n].addr, Size(ops[n].typ));
    }
  }

  /** At every cycle of every run each load the unit has delivered returned, byte for byte,
      what the latest store before it wrote there, and once the unit has drained so does
      memory. */
  lemma LoadsReturnLatest(mem: Memory, x: Xfer, env: nat -> Env, pulpObi: bool, n: nat)
    requires BusObeys(Start(mem, x), env, pulpObi, n)
    ensures var s := Run(Start(mem, x), Stepper(pulpObi), env, n);
      && s.results <= LatestLoads(mem, s.ops)
      && (!s.ex.req && s.pending == [] ==>
            s.results == LatestLoads(mem, s.ops) && forall b :: Read(s.mem, b) == Latest(mem, s.ops, b))
  {
    var s := Run(Start(mem, x), Stepper(pulpObi), env, n);
    EveryCycle(mem, x, env, pulpObi, n);
    DrainedIsInOrder(mem, x, env, pulpObi, n);
    ResultsLatest(mem, s.ops);
    forall b ensures Read(InOrder(mem, s.ops).mem, b) == Latest(mem, s.ops, b) { InOrderLatest(mem, s.ops, b); }
  }

  /** A store and then a load of the same size at the same address: once the unit has
      drained, the load has returned the bytes stored, extended. */
  lemma StoreThenLoad(mem: Memory, x: Xfer, env: nat -> Env, pulpObi: bool, n: nat, op: Op, sext: SignExt)
    requires BusObeys(Start(mem, x), env, pulpObi, n) && op.we
    requires var s := Run(Start(mem, x), Stepper(pulpObi), env, n);
      && !s.ex.req && s.pending == [] && |s.ops| >= 2
      && s.ops[|s.ops| - 2] == op && s.ops[|s.ops| - 1] == op.(we := false, sext := sext)
    ensures var s := Run(Start(mem, x), Stepper(pulpObi), env, n);
      && s.results != []
      && s.results[|s.results| - 1] == Extend(Bytes(op.wdata)[..Size(op.typ)], sext)
  {
    var s := Run(Start(mem, x), Stepper(pulpObi), env, n);
    var k := |s.ops| - 1;
    var before := s.ops[..k];
    DrainedIsInOrder(mem, x, env, pulpObi, n);
    assert before[..k - 1] == s.ops[..k - 1] && before[k - 1] == op;
    LoadAfterStore(InOrder(mem, before[..k - 1]).mem, op, sext);
  }

  /** A byte no store of the run addresses is as it was at the start. */
  lemma UntouchedByte(mem: Memory, x: Xfer, env: nat -> Env, pulpObi: bool, n: nat, b: Address)
    requires BusObeys(Start(mem, x), env, pulpObi, n)
    requires var s := Run(Start(mem, x), Stepper(pulpObi), env, n);
      !s.ex.req && s.pending == [] && forall k :: 0 <= k < |s.ops| ==> ByteAt(s.ops[k], b) == None
    ensures Read(Run(Start(mem, x), Stepper(pulpObi), env, n).mem, b) == Read(mem, b)
  {
    var ops := Run(Start(mem, x), Stepper(pulpObi), env, n).ops;
    LoadsReturnLatest(mem, x, env, pulpObi, n);
    LatestUntouched(mem, ops, b);
  }

  lemma {:induction false} LatestUntouched(start: Memory, ops: seq<Op>, b: Address)
    requires forall k :: 0 <= k < |ops| ==> ByteAt(ops[k], b) == None
    ensures Latest(start, ops, b) == Read(start, b)
  {
    if ops != [] { LatestUntouched(start, ops[..|ops| - 1], b); }
  }
}
