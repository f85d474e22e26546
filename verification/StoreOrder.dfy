/** Loads and stores in program order.

  EX, WB, the bus controller, the data read path's verdict registers and memory, stepped together
  under any timing of acknowledges, lookups, stalls and instruction arrival.  `sent` lists the stores
  in program order as they enter EX, `landed` those memory has taken whole. */
module StoreOrder {
  import opened Memory
  import opened BusControl
  import opened Splitting
  import opened Forwarding

  datatype Core = Core(c: Cfg, x: Pages, precise: bool, dfpMis: bool)

  ghost predicate ValidCore(k: Core) { ValidCfg(k.c) && Follows(k.c, k.x) }

  /** EX's micro-op: its store if it makes one, whether it may (older_store), a BSR/JSR push, a locked write. */
  datatype Uop = Uop(store: Option<Store>, may: bool, push: bool, lock: bool)

  predicate ValidUop(u: Uop) {
    && (u.store.Some? ==> u.may)
    && (u.push ==> u.store.Some? && u.store.value.size == L && !u.lock)
  }

  /** WB's micro-op: its store, and whether that store is posted or synchronous. */
  datatype Wop = Wop(store: Option<Store>, post: bool, lock: bool)

  /** The outstanding data read and how many stores were older than it when it was issued. */
  datatype Pend = Pend(rd: Read, since: nat)

  datatype Sys = Sys(mem: Mem, mem1: Mem, mem2: Mem, b: State, ex: Option<Uop>, wb: Option<Wop>,
                     look: bool, q1: bool, fq1: bool, m2: bool, pend: Option<Pend>,
                     m0: Mem, sent: seq<Store>, landed: seq<Store>, at: nat)

  /** One clock's choices by memory, the read path, the long-running units, EA-fetch and IF. */
  datatype Env = Env(ack: bool, flt: bool, rdata: Word, hit: bool, two: bool, ram: bool, hitData: Word,
                     exBusy: bool, dispatch: Option<Uop>, post: bool, issue: Option<Slot>, fReq: Option<Fetch>)

  // ---------------------------------------------------------------- wires

  function WbStore(s: Sys): Option<Store> { if s.wb.Some? then s.wb.value.store else None }

  predicate WbPost(s: Sys) { s.wb.Some? && s.wb.value.store.Some? && s.wb.value.post }

  function ExStore(s: Sys): Option<Store> { if s.ex.Some? then s.ex.value.store else None }

  predicate OlderStore(s: Sys) { s.ex.Some? && s.ex.value.may }

  predicate ExPush(s: Sys) { s.ex.Some? && s.ex.value.push }

  predicate Hits(o: Option<Store>, r: Read) {
    o.Some? && Lwo(o.value.addr, o.value.size, r.addr, r.size)
  }

  predicate StQuiet(k: Core, s: Sys) {
    && !OlderStore(s) && WbStore(s).None?
    && !(s.b.bus.Some? && s.b.bus.value.high && s.b.bus.value.kind == KStore && !(k.c.mix && s.b.bus.value.fifo))
  }

  /** No store in the way, in the clock the read is issued. */
  predicate QuietI(k: Core, s: Sys, r: Read) {
    if k.precise then !Hits(ExStore(s), r) && !Hits(WbStore(s), r) else StQuiet(k, s)
  }

  /** ... and in the clock it is answered. */
  predicate QuietA(k: Core, s: Sys) {
    if k.precise then s.b.slot.Some? ==> !Hits(ExStore(s), s.b.slot.value.rd) else StQuiet(k, s)
  }

  predicate Fwd(k: Core, s: Sys, e: Env) {
    && k.c.fwd && s.look && s.fq1 && s.b.slot.Some?
    && (if k.precise then !Hits(ExStore(s), s.b.slot.value.rd) else !OlderStore(s))
    && e.ram && s.b.q.lk.fwOk
  }

  predicate Hold(k: Core, s: Sys, e: Env) {
    k.dfpMis && s.look && s.q1 && QuietA(k, s) && e.two && !(k.c.mix && s.b.q.lk.ovl) && !Fwd(k, s, e)
  }

  predicate FastHit(k: Core, s: Sys, e: Env) {
    || (s.look && s.q1 && QuietA(k, s) && e.hit && !(k.c.mix && s.b.q.lk.ovl) && !Fwd(k, s, e))
    || (k.dfpMis && s.m2 && QuietA(k, s) && e.hit)
  }

  function BusIn(k: Core, s: Sys, e: Env): In {
    var w := WbStore(s);
    In(w.Some? && !WbPost(s), WbPost(s) && !SbFull(k.c, s.b), WbPost(s),
       if w.Some? then w.value else Store(0, L, ZERO, 5),
       OlderStore(s) || w.Some?,
       if e.issue.Some? then Some(e.issue.value.rd) else None,
       if ExPush(s) then ExStore(s) else None, w, s.wb.Some? && !s.wb.value.lock,
       e.issue, FastHit(k, s, e), e.hitData, Fwd(k, s, e), Hold(k, s, e), e.fReq, e.ack, e.flt, e.rdata)
  }

  predicate WbHold(k: Core, s: Sys, e: Env) {
    WbStore(s).Some? && if WbPost(s) then SbFull(k.c, s.b) else !StDone(k.c, s.b, BusIn(k, s, e))
  }

  predicate ExStall(k: Core, s: Sys, e: Env) { WbHold(k, s, e) || (s.ex.Some? && e.exBusy) }

  // ---------------------------------------------------------------- memory's side

  /** The piece on the port, as memory sees it. */
  ghost function PortPhys(k: Core, t: Xfer): Addr { Phys(k.x, t.fc, PieceAddr(SplitX(k.c, t), t.addr, t.i)) }

  ghost function NextMem(k: Core, s: Sys, e: Env): Mem {
    if Done(s.b, BusIn(k, s, e)) && s.b.bus.value.kind == KStore && !e.flt then
      var t := s.b.bus.value;
      var n := StepBytes(SplitX(k.c, t), t.size);
      Poke(s.mem, PortPhys(k, t), PieceData(SplitX(k.c, t), t.data, t.size, t.i), n, n)
    else s.mem
  }

  /** A hit returns, byte by byte, a value memory had at a lookup edge: in this clock or the two before. */
  ghost predicate HitData(k: Core, s: Sys, r: Read, w: Word) {
    forall i :: 0 <= i < Bytes(r.size) ==>
      var b := Lane(w, Bytes(r.size) - 1 - i);
      var p := RdPhys(k.x, r, i);
      b == s.mem[p] || b == s.mem1[p] || b == s.mem2[p]
  }

  ghost predicate Legal(k: Core, s: Sys, e: Env) {
    // a store's access error ends the run considered
    && (e.flt ==> s.b.bus.Some? && s.b.bus.value.kind != KStore)
    // memory answers a read of a piece with its bytes
    && (e.ack && !e.flt && s.b.bus.Some? && s.b.bus.value.high && s.b.bus.value.kind == KRead ==>
          var t := s.b.bus.value;
          AnswersPiece(s.mem, PortPhys(k, t), StepBytes(SplitX(k.c, t), t.size), e.rdata))
    // ... and a fetch with its own
    && (e.ack && !e.flt && IsFetch(s) && s.b.bus.value.high ==> Answers(k.x, s.mem, s.b.bus.value.AsRead(), e.rdata))
    && (e.hit && s.b.slot.Some? ==>
          && (s.look ==> forall i :: 0 <= i < Bytes(s.b.slot.value.rd.size) ==>
                var p := RdPhys(k.x, s.b.slot.value.rd, i);
                var v := Lane(e.hitData, Bytes(s.b.slot.value.rd.size) - 1 - i);
                v == s.mem[p] || v == s.mem1[p])
          && (!s.look ==> HitData(k, s, s.b.slot.value.rd, e.hitData)))
    && (e.dispatch.Some? ==> ValidUop(e.dispatch.value) && !ExStall(k, s, e))
    && (e.post ==> k.c.mix && s.ex.Some? && !s.ex.value.lock)
    // one read outstanding: the next may be issued in the clock the last is answered
    && (e.issue.Some? ==> s.pend.None? || s.b.q.rd.ack)
  }

  function StoresOf(o: Option<Uop>): seq<Store> {
    if o.Some? && o.value.store.Some? then [o.value.store.value] else []
  }

  ghost function NextSys(k: Core, s: Sys, e: Env): Sys {
    var i := BusIn(k, s, e);
    var sent := s.sent + StoresOf(e.dispatch);
    Sys(NextMem(k, s, e), s.mem, s.mem1, Next(k.c, s.b, i),
        if ExStall(k, s, e) then s.ex else e.dispatch,
        if WbHold(k, s, e) then s.wb
        else if s.ex.Some? && !e.exBusy then Some(Wop(s.ex.value.store, e.post, s.ex.value.lock)) else None,
        e.issue.Some?,
        e.issue.Some? && QuietI(k, s, e.issue.value.rd),
        e.issue.Some? && ((if k.precise then !Hits(ExStore(s), e.issue.value.rd) else !OlderStore(s)) || ExPush(s)),
        Hold(k, s, e),
        if e.issue.Some? then Some(Pend(e.issue.value.rd, |sent|)) else if s.b.q.rd.ack then None else s.pend,
        s.m0, sent,
        if Fin(k.c, s.b, i) && s.b.bus.value.kind == KStore then s.landed + [s.b.bus.value.AsStore()] else s.landed,
        if GoRd(s.b, i) then |s.sent| else s.at)
  }

  // ---------------------------------------------------------------- what every clock keeps

  /** WB's store, unless memory has it already (its registered completion is on its way back). */
  function WbPart(k: Core, s: Sys): seq<Store> {
    if WbStore(s).Some? && !(k.c.doneReg && s.b.q.stDoneQ) then [WbStore(s).value] else []
  }

  /** The stores memory does not have, oldest first. */
  function InFlight(k: Core, s: Sys): seq<Store> { s.b.fifo + WbPart(k, s) + StoresOf(s.ex) }

  predicate IsStore(s: Sys) { s.b.bus.Some? && s.b.bus.value.kind == KStore }

  predicate IsFetch(s: Sys) { s.b.bus.Some? && s.b.bus.value.kind == KFetch }

  predicate IsRead(s: Sys) { s.b.bus.Some? && s.b.bus.value.kind == KRead }

  /** Queue, WB and the port agree on which store is being written. */
  predicate Lined(k: Core, s: Sys) {
    && |s.b.fifo| <= k.c.n && (!k.c.mix ==> s.b.fifo == [])
    && (s.wb.Some? && s.wb.value.post ==> k.c.mix && !s.wb.value.lock)
    && (s.ex.Some? ==> ValidUop(s.ex.value))
    && (s.b.bus.Some? ==> s.b.bus.value.i < Pieces(SplitX(k.c, s.b.bus.value), s.b.bus.value.size))
    && (IsStore(s) && s.b.bus.value.fifo ==> s.b.fifo != [] && s.b.fifo[0] == s.b.bus.value.AsStore())
    && (IsStore(s) && !s.b.bus.value.fifo ==>
          && s.b.fifo == [] && WbStore(s) == Some(s.b.bus.value.AsStore()) && !WbPost(s)
          && !(k.c.doneReg && s.b.q.stDoneQ))
    && (k.c.doneReg && s.b.q.stDoneQ ==>
          && s.b.bus.None? && s.b.fifo == [] && WbStore(s).Some? && !WbPost(s)
          && s.landed != [] && s.landed[|s.landed| - 1] == WbStore(s).value)
  }

  /** Memory is what the landed stores made it, plus the first pieces of the one being written. */
  ghost predicate MemIs(k: Core, s: Sys) {
    var base := ApplyAll(k.x, s.m0, s.landed);
    if IsStore(s) then
      var t := s.b.bus.value;
      var n := Covered(SplitX(k.c, t), t.size, t.i);
      n <= Bytes(t.size) && s.mem == Put(k.x, base, t.AsStore(), n)
    else s.mem == base
  }

  /** Every store once, in order: those in memory, then those on their way. */
  predicate Accounted(k: Core, s: Sys) { s.sent == s.landed + InFlight(k, s) }

  /** The read is in one place: the slot, the port, or its answer register. */
  predicate ReadPlace(s: Sys) {
    && (s.b.slot.Some? ==> s.pend.Some? && s.pend.value.rd == s.b.slot.value.rd && !IsRead(s) && !s.b.q.rd.ack)
    && (IsRead(s) ==> s.pend.Some? && s.pend.value.rd == s.b.bus.value.AsRead() && !s.b.q.rd.ack)
    && (s.b.q.rd.ack ==> s.pend.Some?)
    && (s.pend.Some? ==> s.pend.value.since <= |s.sent|)
    && (s.look ==> s.b.slot.Some?) && (s.m2 ==> !s.look)
  }

  /** While the port reads, memory stands as it was when the read was granted, with every store sent by then. */
  ghost predicate PortReads(k: Core, s: Sys) {
    IsRead(s) ==>
      var t := s.b.bus.value;
      && s.at <= |s.sent| && s.pend.Some? && s.pend.value.since <= s.at
      && s.landed == s.sent[..s.at]
      && Gathered(k.x, s.mem, t.AsRead(), Covered(SplitX(k.c, t), t.size, t.i), t.acc)
  }

  ghost predicate AllApart(k: Core, ss: seq<Store>, r: Read) {
    forall i :: 0 <= i < |ss| ==> Apart(k.x, ss[i], r)
  }

  /** What a clean verdict of the last clock (or two) says now. */
  ghost predicate Verdicts(k: Core, s: Sys) {
    s.b.slot.Some? ==>
      var r := s.b.slot.value.rd;
      && (s.look && s.q1 && !(k.c.mix && s.b.q.lk.ovl) ==>
            AllApart(k, s.b.fifo + WbPart(k, s), r) && Same(k.x, s.mem, s.mem1, r))
      && (s.m2 ==>
            AllApart(k, s.b.fifo + WbPart(k, s), r) && Same(k.x, s.mem, s.mem1, r) && Same(k.x, s.mem, s.mem2, r))
      && (s.look && s.fq1 && s.b.q.lk.fwOk && AllApart(k, StoresOf(s.ex), r) ==>
            Answers(k.x, ApplyAll(k.x, s.m0, s.sent), r, s.b.q.lk.fwData))
  }

  /** The answer is memory's after every store up to some point not before the read's issue. */
  ghost predicate AnswerExact(k: Core, s: Sys) {
    s.b.q.rd.ack && !s.b.q.rd.err && s.pend.Some? ==>
      exists n :: s.pend.value.since <= n <= |s.sent|
                  && Answers(k.x, ApplyAll(k.x, s.m0, s.sent[..n]), s.pend.value.rd, s.b.q.rd.data)
  }

  ghost predicate Inv(k: Core, s: Sys) {
    && Lined(k, s) && MemIs(k, s) && Accounted(k, s) && ReadPlace(s) && PortReads(k, s) && Verdicts(k, s)
    && AnswerExact(k, s)
  }

  ghost predicate Init(k: Core, s: Sys) {
    && s.b == RESET && s.ex.None? && s.wb.None? && !s.look && !s.m2 && s.pend.None?
    && s.sent == [] && s.landed == [] && s.mem == s.m0
  }

  /** A run: any number of clocks from reset, over any initial memory. */
  ghost predicate Run(k: Core, ss: seq<Sys>, es: seq<Env>) {
    && ValidCore(k) && |ss| == |es| + 1 && Init(k, ss[0])
    && forall i :: 0 <= i < |es| ==> Legal(k, ss[i], es[i]) && ss[i + 1] == NextSys(k, ss[i], es[i])
  }

  /** In the clock before clock `i` memory answered the data read on the port with an access error. */
  ghost predicate ReadFaulted(ss: seq<Sys>, es: seq<Env>, i: nat)
    requires i <= |ss| && i <= |es|
  {
    i > 0 && IsRead(ss[i - 1]) && ss[i - 1].b.bus.value.high && es[i - 1].flt
  }

  /** The reading instruction waits in EA-fetch: no store enters EX while its read is outstanding. */
  predicate Patient(s: Sys, e: Env) { s.pend.Some? && !s.b.q.rd.ack ==> StoresOf(e.dispatch) == [] }
}
