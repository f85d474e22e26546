/** The bus controller's rules: address filters, splitting, and the transition of its state,
  the posted-store ring seen as a queue and the port as one transfer made of pieces. */
module BusControl {
  import opened Memory

  datatype Cfg = Cfg(mix: bool, doneReg: bool, fwd: bool, misplit: bool, n: nat, tcE: bool, tcP: bool)

  /** SB_N as the pointer widths support it. */
  predicate ValidCfg(c: Cfg) {
    c.n == 2 || c.n == 4 || c.n == 8
  }

  // ---------------------------------------------------------------- address filters

  /** Page offset of an access's last byte, in 12-bit arithmetic. */
  function FEnd(a: Addr, z: Size): (e: nat)
    ensures e < PAGE
  {
    (a % PAGE + Bytes(z) - 1) % PAGE
  }

  /** Longword index in the page (addr[11:2]) of the first and the last byte. */
  function LwFirst(a: Addr): nat { a % PAGE / 4 }

  function LwLast(a: Addr, z: Size): nat { Plus(a, Bytes(z) - 1) % PAGE / 4 }

  predicate FOvl(a1: Addr, z1: Size, a2: Addr, z2: Size) {
    var e1, e2 := FEnd(a1, z1), FEnd(a2, z2);
    || LwFirst(a1) == LwFirst(a2) || LwFirst(a1) == e2 / 4
    || e1 / 4 == LwFirst(a2) || e1 / 4 == e2 / 4
  }

  predicate Lwo(a1: Addr, z1: Size, a2: Addr, z2: Size) {
    || LwFirst(a1) == LwFirst(a2) || LwFirst(a1) == LwLast(a2, z2)
    || LwLast(a1, z1) == LwFirst(a2) || LwLast(a1, z1) == LwLast(a2, z2)
  }

  predicate FCov(a1: Addr, z1: Size, a2: Addr, z2: Size) {
    var e1, e2 := FEnd(a1, z1), FEnd(a2, z2);
    && a1 / PAGE == a2 / PAGE && e1 >= a1 % PAGE && e2 >= a2 % PAGE
    && a2 % PAGE >= a1 % PAGE && e2 <= e1
  }

  function ExtLane(d: Word, a1: Addr, z1: Size, a2: Addr, z2: Size, k: nat): Byte
    requires k < 4
  {
    var n1, n2, off := Bytes(z1), Bytes(z2), (a2 % 4 - a1 % 4) % 4;
    if k < n2 && off + (n2 - 1 - k) < n1 then Lane(d, n1 - 1 - (off + (n2 - 1 - k))) else 0
  }

  /** What the read loads when the store covers it, right-aligned. */
  function FExt(d: Word, a1: Addr, z1: Size, a2: Addr, z2: Size): Word {
    Word(ExtLane(d, a1, z1, a2, z2, 3), ExtLane(d, a1, z1, a2, z2, 2),
         ExtLane(d, a1, z1, a2, z2, 1), ExtLane(d, a1, z1, a2, z2, 0))
  }

  predicate Crosses(e: bool, p: bool, a: Addr, z: Size) {
    var off := (if p then a % 0x2000 else a % 0x1000) + Bytes(z);
    e && z != B && (if p then off > 0x2000 else off > 0x1000)
  }

  predicate Misal(c: Cfg, a: Addr, z: Size) {
    c.misplit && ((z == L && a % 4 != 0) || (z == W && a % 2 == 1))
  }

  predicate WSplit(c: Cfg, a: Addr, z: Size) {
    c.misplit && z == L && a % 4 == 2
  }

  // ---------------------------------------------------------------- pieces of a transfer

  datatype Split = Whole | Words | Bytewise

  function SplitOf(c: Cfg, a: Addr, z: Size): Split {
    if !(Crosses(c.tcE, c.tcP, a, z) || Misal(c, a, z)) then Whole
    else if WSplit(c, a, z) then Words else Bytewise
  }

  function Pieces(p: Split, z: Size): (n: nat)
    ensures 1 <= n <= 4
  {
    match p case Whole => 1 case Words => 2 case Bytewise => if z == L then 4 else 2
  }

  function PieceSize(p: Split, z: Size): Size {
    match p case Whole => z case Words => W case Bytewise => B
  }

  function PieceAddr(p: Split, a: Addr, i: nat): Addr {
    match p case Whole => a case Words => Plus(a, 2 * i) case Bytewise => Plus(a, i)
  }

  /** Store data of piece `i`, right-aligned. */
  function PieceData(p: Split, d: Word, z: Size, i: nat): Word {
    match p
    case Whole => d
    case Words => if i == 0 then Word(0, 0, d.b3, d.b2) else Word(0, 0, d.b1, d.b0)
    case Bytewise =>
      if z == W then Word(0, 0, 0, if i % 2 == 0 then d.b1 else d.b0) else Word(0, 0, 0, Lane(d, 3 - i % 4))
  }

  /** The bytes read so far with one more piece's answer appended. */
  function Gather(p: Split, acc: Word, r: Word): Word {
    if p == Words then Word(0, 0, r.b1, r.b0) else Word(0, acc.b1, acc.b0, r.b0)
  }

  /** The whole read's value from the bytes so far and the last piece's answer. */
  function Assemble(p: Split, z: Size, acc: Word, r: Word): Word {
    match p
    case Whole => r
    case Words => Word(acc.b1, acc.b0, r.b1, r.b0)
    case Bytewise => if z == L then Word(acc.b2, acc.b1, acc.b0, r.b0) else Word(0, 0, acc.b0, r.b0)
  }

  // ---------------------------------------------------------------- state and transition

  datatype Kind = KStore | KRead | KFetch

  /** A transfer on the port: `i` pieces are done, `high` is mem_req. */
  datatype Xfer = Xfer(kind: Kind, addr: Addr, size: Size, fc: FC, data: Word, fifo: bool, lock: bool,
                       i: nat, high: bool, acc: Word)
  {
    function AsStore(): Store { Store(addr, size, data, fc) }
    function AsRead(): Read { Read(addr, size, fc) }
  }

  datatype Slot = Slot(rd: Read, lock: bool)
  datatype Fetch = Fetch(addr: Addr, long: bool, fc: FC)

  /** An answer to a client: a one-clock acknowledge, the value, and whether it is an access error. */
  datatype Answer = Answer(ack: bool, data: Word, err: bool)

  /** The registered verdicts on the last lookup: sb_ovl, fw_ok, fw_data. */
  datatype Looked = Looked(ovl: bool, fwOk: bool, fwData: Word)

  /** The registered verdicts and answers. */
  datatype Regs = Regs(lk: Looked, stDoneQ: bool, rd: Answer, ft: Answer, stErr: bool)

  datatype State = State(fifo: seq<Store>, slot: Option<Slot>, bus: Option<Xfer>, q: Regs)

  const NONE: Answer := Answer(false, ZERO, false)
  const RESET: State := State([], None, None, Regs(Looked(false, false, ZERO), false, NONE, NONE, false))

  datatype In = In(stV: bool, spV: bool, spWait: bool, st: Store, olderSt: bool,
                   lk: Option<Read>, exs: Option<Store>, wbs: Option<Store>, wbsOk: bool,
                   rdReq: Option<Slot>, rdFast: bool, rdFastData: Word, rdFwd: bool, rdHold: bool,
                   fReq: Option<Fetch>, ack: bool, flt: bool, rdata: Word)

  predicate Touches(s: Store, r: Read) { FOvl(s.addr, s.size, r.addr, r.size) }

  /** The queue's overlap verdict: each entry carries the longwords of its first and last byte. */
  predicate LkHit(fifo: seq<Store>, r: Read) {
    exists k :: 0 <= k < |fifo| && Lwo(fifo[k].addr, fifo[k].size, r.addr, r.size)
  }

  /** What one store says to a lookup: nothing, "I cover it, here is the value", or "wait for me". */
  datatype Verdict = Miss | Hit(value: Word) | Block

  function Ask(s: Store, ok: bool, r: Read): Verdict {
    if !Touches(s, r) then Miss
    else if ok && s.fc == r.fc && FCov(s.addr, s.size, r.addr, r.size)
    then Hit(FExt(s.data, s.addr, s.size, r.addr, r.size)) else Block
  }

  /** The queue, newest entry first. */
  function AskFifo(fifo: seq<Store>, r: Read): Verdict {
    if fifo == [] then Miss
    else
      var v := Ask(fifo[|fifo| - 1], true, r);
      if v != Miss then v else AskFifo(fifo[..|fifo| - 1], r)
  }

  /** EX's push, then WB's store, then the queue: the first that is not a miss decides. */
  function Search(fifo: seq<Store>, exs: Option<Store>, wbs: Option<Store>, wbsOk: bool, r: Read): Verdict {
    var e := if exs.Some? then Ask(exs.value.(size := L), true, r) else Miss;
    var w := if wbs.Some? then Ask(wbs.value, wbsOk, r) else Miss;
    if e != Miss then e else if w != Miss then w else AskFifo(fifo, r)
  }

  predicate Done(s: State, i: In) { s.bus.Some? && s.bus.value.high && (i.ack || i.flt) }

  /** Fetches are never split. */
  function SplitX(c: Cfg, t: Xfer): Split {
    if t.kind == KFetch then Whole else SplitOf(c, t.addr, t.size)
  }

  predicate Last(c: Cfg, t: Xfer) { t.i + 1 == Pieces(SplitX(c, t), t.size) }

  predicate Fin(c: Cfg, s: State, i: In) { Done(s, i) && (i.flt || Last(c, s.bus.value)) }

  /** WB's synchronous store completes at the memory this clock (st_done_c). */
  predicate StDoneC(c: Cfg, s: State, i: In) {
    Fin(c, s, i) && s.bus.value.kind == KStore && !s.bus.value.fifo
  }

  predicate StDone(c: Cfg, s: State, i: In) { if c.doneReg then s.q.stDoneQ else StDoneC(c, s, i) }

  predicate SbFull(c: Cfg, s: State) { c.mix && |s.fifo| == c.n }

  predicate GoFifo(c: Cfg, s: State) { c.mix && s.bus.None? && s.fifo != [] }

  predicate GoSync(c: Cfg, s: State, i: In) {
    s.bus.None? && i.stV && !(c.doneReg && s.q.stDoneQ) && s.fifo == []
  }

  predicate GoRd(s: State, i: In) {
    s.bus.None? && s.fifo == [] && !i.stV && !i.olderSt && s.slot.Some? && !i.rdFast && !i.rdFwd && !i.rdHold
  }

  predicate GoIf(c: Cfg, s: State, i: In) {
    && s.bus.None? && !GoFifo(c, s) && !GoSync(c, s, i) && !GoRd(s, i)
    && i.fReq.Some? && !(c.mix && i.spWait)
  }

  function StoreXfer(s: Store, fifo: bool): Xfer {
    Xfer(KStore, s.addr, s.size, s.fc, s.data, fifo, false, 0, true, ZERO)
  }

  function ReadXfer(s: Slot): Xfer {
    Xfer(KRead, s.rd.addr, s.rd.size, s.rd.fc, ZERO, false, s.lock, 0, true, ZERO)
  }

  function FetchXfer(f: Fetch): Xfer {
    Xfer(KFetch, f.addr, if f.long then L else W, f.fc, ZERO, false, false, 0, true, ZERO)
  }

  function NextBus(c: Cfg, s: State, i: In): Option<Xfer> {
    match s.bus
    case Some(t) =>
      if !t.high then Some(t.(high := true))
      else if Fin(c, s, i) then None
      else if Done(s, i) then
        Some(t.(i := t.i + 1, high := false,
                acc := if t.kind == KRead then Gather(SplitX(c, t), t.acc, i.rdata) else ZERO))
      else s.bus
    case None =>
      if GoFifo(c, s) then Some(StoreXfer(s.fifo[0], true))
      else if GoSync(c, s, i) then Some(StoreXfer(i.st, false))
      else if GoRd(s, i) then Some(ReadXfer(s.slot.value))
      else if GoIf(c, s, i) then Some(FetchXfer(i.fReq.value))
      else None
  }

  predicate Pops(c: Cfg, s: State, i: In) { Fin(c, s, i) && s.bus.value.kind == KStore && s.bus.value.fifo }

  function NextFifo(c: Cfg, s: State, i: In): seq<Store> {
    (if Pops(c, s, i) && s.fifo != [] then s.fifo[1..] else s.fifo) + (if c.mix && i.spV then [i.st] else [])
  }

  /** A read answered without the port. */
  predicate Fast(s: State, i: In) { (i.rdFast || i.rdFwd) && s.slot.Some? }

  predicate PortRead(c: Cfg, s: State, i: In) { Fin(c, s, i) && s.bus.value.kind == KRead }

  predicate PortFetch(c: Cfg, s: State, i: In) { Fin(c, s, i) && s.bus.value.kind == KFetch }

  /** Which transfer was on the port; only read when one was. */
  function OnPort(s: State): Xfer { if s.bus.Some? then s.bus.value else FetchXfer(Fetch(0, false, 0)) }

  function NextLooked(c: Cfg, s: State, i: In): Looked {
    if i.lk.None? then s.q.lk
    else
      var v := Search(s.fifo, i.exs, i.wbs, i.wbsOk, i.lk.value);
      Looked(c.mix && LkHit(s.fifo, i.lk.value), c.fwd && v.Hit?, if v.Hit? then v.value else ZERO)
  }

  function NextRd(c: Cfg, s: State, i: In): Answer {
    var t := OnPort(s);
    if PortRead(c, s, i) then Answer(true, Assemble(SplitX(c, t), t.size, t.acc, i.rdata), i.flt)
    else if Fast(s, i) then Answer(true, if i.rdFwd then s.q.lk.fwData else i.rdFastData, false)
    else s.q.rd.(ack := false)
  }

  /** A one-word fetch is answered on top, over a NOP. */
  function NextFt(c: Cfg, s: State, i: In): Answer {
    if PortFetch(c, s, i)
    then Answer(true, if OnPort(s).size == W then Word(i.rdata.b1, i.rdata.b0, 0x4E, 0x71) else i.rdata, i.flt)
    else s.q.ft.(ack := false)
  }

  function NextSlot(s: State, i: In): Option<Slot> {
    if GoRd(s, i) || Fast(s, i) then None else if i.rdReq.Some? then i.rdReq else s.slot
  }

  function Next(c: Cfg, s: State, i: In): State {
    State(NextFifo(c, s, i), NextSlot(s, i), NextBus(c, s, i),
          Regs(NextLooked(c, s, i), StDoneC(c, s, i), NextRd(c, s, i), NextFt(c, s, i),
               s.q.stErr || (Pops(c, s, i) && i.flt)))
  }
}
