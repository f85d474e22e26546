/** Instruction fetch and decode together: words are gathered into instructions, taken branches redirect
  the fetch, and a predicted jump is confirmed or repaired.  `arch` is where the program must be,
  whatever the buffer guessed. */
module Prediction {
  import opened Memory
  import opened Prefetch
  import opened ReturnStack

  /** What decoding an instruction's words says about where the program goes. */
  datatype Class = Plain | Branch | Bsr | Jsr | Rts | Unstack

  /** The decoder: the length of the instruction that starts a list of words, once those words tell;
    its class and branch target; and whether it is an illegal one, whose next address is one word on. */
  datatype Isa = Isa(len: seq<Half> -> Option<nat>, cls: (Addr, seq<Half>) -> Class,
                     target: (Addr, seq<Half>) -> Addr, bad: (Addr, seq<Half>) -> bool)

  /** Length is settled by the instruction's own words; a branch class has an even target (a branch to an
    odd address is decoded as an exception); an illegal instruction is no branch or return. */
  ghost predicate ValidIsa(isa: Isa) {
    && (forall ws: seq<Half> :: isa.len(ws).Some? ==> 1 <= isa.len(ws).value <= 11)
    && (forall ws: seq<Half>, t: seq<Half> :: isa.len(ws).Some? ==> isa.len(ws + t) == isa.len(ws))
    && (forall ws: seq<Half> :: isa.len(ws).Some? && isa.len(ws).value <= |ws| ==>
          isa.len(ws[..isa.len(ws).value]) == isa.len(ws))
    && (forall a: Addr, ws: seq<Half> :: isa.cls(a, ws) in {Branch, Bsr} ==> isa.target(a, ws) % 2 == 0)
    && (forall a: Addr, ws: seq<Half> :: isa.bad(a, ws) ==> isa.cls(a, ws) == Plain)
  }

  datatype Ctx = Ctx(c: FCfg, isa: Isa, ras: bool)

  datatype Emission = Emission(pc: Addr, ws: seq<Half>)

  /** An emission, and whether its last word carried a mark. */
  datatype Taken = Taken(e: Emission, mk: bool)

  /** Where the program is. */
  datatype Arch = Arch(pc: Addr, ras: Ras)

  datatype Front = Front(f: Fetcher, g: seq<Half>, gPc: Addr, ras: Ras,
                         start: Arch, out: seq<Taken>, arch: Arch, tries: nat, cleared: bool)

  /** `ext` is a redirect from a later stage, which flushes ID. */
  datatype FrontIn = FrontIn(ext: Option<Redirect>, extHold: bool, fetchHold: bool, stall: bool, s: bool,
                             gnt: bool, ack: bool, w0: Half, w1: Half, clear: bool)

  // ---------------------------------------------------------------- the program's own path

  function IsBr(k: Class): bool { k == Branch || k == Bsr }

  function RasNext(x: Ctx, r: Ras, k: Class, ret: Addr): (t: Ras)
    requires ValidRas(r)
    ensures ValidRas(t)
  {
    if !x.ras then r
    else if k == Bsr || k == Jsr then RasPush(r, ret)
    else if k == Rts || k == Unstack then RasPop(r) else r
  }

  /** Where fetching goes after an instruction when nothing is predicted: every branch guessed taken, a
    return to the return-address stack's top, anything else straight on. */
  function PathNext(x: Ctx, r: Ras, e: Emission): Addr
    requires ValidRas(r)
  {
    var k := x.isa.cls(e.pc, e.ws);
    if IsBr(k) then x.isa.target(e.pc, e.ws)
    else if x.ras && k == Rts && r.n != 0 then RasTop(r)
    else Plus(e.pc, 2 * |e.ws|)
  }

  /** id_o.next_pc. */
  function NextPc(x: Ctx, e: Emission): Addr {
    Plus(e.pc, if x.isa.bad(e.pc, e.ws) then 2 else 2 * |e.ws|)
  }

  /** A mark ends an illegal instruction of several words: ID's redirect goes to the address one word on. */
  predicate Strays(x: Ctx, t: Taken) { t.mk && x.isa.bad(t.e.pc, t.e.ws) && |t.e.ws| != 1 }

  function ArchNext(x: Ctx, a: Arch, t: Taken): (b: Arch)
    requires ValidRas(a.ras)
    ensures ValidRas(b.ras)
  {
    Arch(if Strays(x, t) then NextPc(x, t.e) else PathNext(x, a.ras, t.e),
         RasNext(x, a.ras, x.isa.cls(t.e.pc, t.e.ws), NextPc(x, t.e)))
  }

  /** The instruction at `a`: its words are the code's, as many as they say. */
  ghost predicate InstrAt(isa: Isa, code: Addr -> Half, a: Addr, e: Emission) {
    && e.pc == a && isa.len(e.ws) == Some(|e.ws|)
    && forall i :: 0 <= i < |e.ws| ==> e.ws[i] == code(Plus(a, 2 * i))
  }

  // ---------------------------------------------------------------- ID's wires

  function Avail(s: Front): nat { if |s.f.q| >= 2 then 2 else |s.f.q| }

  /** The words gathered and offered. */
  function ViewOf(s: Front): seq<Half> {
    s.g + (if |s.f.q| >= 1 then [s.f.q[0].w] else []) + (if |s.f.q| >= 2 then [s.f.q[1].w] else [])
  }

  function VPc(s: Front): Addr { if s.g == [] then s.f.r.qpc else s.gPc }

  predicate Complete(x: Ctx, s: Front) {
    var v := ViewOf(s);
    v != [] && x.isa.len(v).Some? && |v| >= x.isa.len(v).value
  }

  function InstrLen(x: Ctx, s: Front): nat {
    if Complete(x, s) then x.isa.len(ViewOf(s)).value else 0
  }

  /** Words taken from the queue, not looking at a flush. */
  function Consume(x: Ctx, s: Front, i: FrontIn): nat {
    if i.stall then 0
    else if Complete(x, s) then if InstrLen(x, s) >= |s.g| then InstrLen(x, s) - |s.g| else 0
    else Avail(s)
  }

  predicate MkIn(x: Ctx, s: Front, i: FrontIn) {
    var n := Consume(x, s, i);
    && x.c.btb && i.ext.None? && !i.stall
    && ((|s.f.q| >= 1 && s.f.q[0].m && n != 0) || (|s.f.q| >= 2 && s.f.q[1].m && n == 2))
  }

  predicate MkEnd(x: Ctx, s: Front, i: FrontIn) {
    var n := Consume(x, s, i);
    && MkIn(x, s, i) && Complete(x, s)
    && ((|s.f.q| >= 1 && s.f.q[0].m && n == 1) || (|s.f.q| >= 2 && s.f.q[1].m && n == 2))
  }

  /** The marked word is not the last of an instruction: drop it and fetch it again. */
  predicate BadMk(x: Ctx, s: Front, i: FrontIn) { MkIn(x, s, i) && !MkEnd(x, s, i) }

  predicate Emits(x: Ctx, s: Front, i: FrontIn) { Complete(x, s) && i.ext.None? && !i.stall && !BadMk(x, s, i) }

  function Instr(x: Ctx, s: Front): Emission {
    Emission(VPc(s), if Complete(x, s) then ViewOf(s)[..InstrLen(x, s)] else [])
  }

  predicate RasHit(x: Ctx, s: Front) {
    x.ras && x.isa.cls(VPc(s), Instr(x, s).ws) == Rts && s.ras.n != 0
  }

  predicate StdRd(x: Ctx, s: Front, i: FrontIn) {
    Emits(x, s, i) && (IsBr(x.isa.cls(VPc(s), Instr(x, s).ws)) || RasHit(x, s))
  }

  /** The guess was right: IF has the target's words already. */
  predicate PredOk(x: Ctx, s: Front, i: FrontIn) {
    && MkEnd(x, s, i) && IsBr(x.isa.cls(VPc(s), Instr(x, s).ws))
    && x.isa.target(VPc(s), Instr(x, s).ws) / 2 == s.f.r.mTg
  }

  function IdRedirect(x: Ctx, s: Front, i: FrontIn): Option<Addr>
    requires ValidRas(s.ras)
  {
    var e := Instr(x, s);
    if BadMk(x, s, i) then Some(VPc(s))
    else if StdRd(x, s, i) && !PredOk(x, s, i) then Some(if RasHit(x, s) then RasTop(s.ras) else x.isa.target(e.pc, e.ws))
    else if Emits(x, s, i) && MkEnd(x, s, i) && !StdRd(x, s, i) then Some(NextPc(x, e))
    else None
  }

  /** Teaching the buffer: a taken branch that was not predicted, a wrong or misplaced mark. */
  function BtbWrite(x: Ctx, s: Front, i: FrontIn): BtbOp {
    var e := Instr(x, s);
    var n := Consume(x, s, i);
    var br := IsBr(x.isa.cls(e.pc, e.ws));
    var learn := x.c.btb && Emits(x, s, i) && br && !MkEnd(x, s, i);
    var fix := x.c.btb && ((Emits(x, s, i) && MkEnd(x, s, i) && !PredOk(x, s, i)) || BadMk(x, s, i));
    var s0 := |s.f.q| >= 1 && s.f.q[0].s;
    var s1 := |s.f.q| >= 2 && s.f.q[1].s;
    var last := if n == 2 then s1 else s0;
    if i.clear then Clear
    else if learn then
      Write(true, (NextPc(x, e) / 2 + 0x7FFF_FFFF + (if last then 0x7FFF_FFFF else 0)) % 0x8000_0000, last, x.isa.target(e.pc, e.ws) / 2)
    else if fix then Write(!BadMk(x, s, i) && br, s.f.r.mF, last, x.isa.target(e.pc, e.ws) / 2)
    else Keep
  }

  function FetchIn(x: Ctx, s: Front, i: FrontIn): FIn
    requires ValidRas(s.ras)
  {
    var d := IdRedirect(x, s, i);
    FIn(if i.ext.Some? then i.ext else if d.Some? then Some(Redirect(d.value, i.s)) else None,
        i.ext.Some? && i.extHold, i.fetchHold, Consume(x, s, i), i.gnt, i.ack, i.w0, i.w1, false, BtbWrite(x, s, i))
  }

  function Count(b: seq<Entry>): nat {
    if b == [] then 0 else (if b[0].v then 1 else 0) + Count(b[1..])
  }

  function NextFront(x: Ctx, s: Front, i: FrontIn): Front
    requires ValidF(s.f) && ValidRas(s.ras) && ValidRas(s.arch.ras) && Consume(x, s, i) <= Avail(s)
  {
    var e := Instr(x, s);
    var emits := Emits(x, s, i);
    var f' := NextF(x.c, s.f, FetchIn(x, s, i));
    var ras' := if emits then RasNext(x, s.ras, x.isa.cls(e.pc, e.ws), NextPc(x, e)) else s.ras;
    var drop := i.ext.Some? || BadMk(x, s, i);
    Front(f',
          if drop then [] else if i.stall then s.g else if Complete(x, s) then [] else ViewOf(s),
          if drop || i.stall || Complete(x, s) || s.g != [] then s.gPc else s.f.r.qpc,
          ras',
          if i.ext.Some? then Arch(i.ext.value.pc, s.ras) else s.start,
          if i.ext.Some? then [] else if emits then s.out + [Taken(e, MkEnd(x, s, i))] else s.out,
          if i.ext.Some? then Arch(i.ext.value.pc, s.ras)
          else if emits then ArchNext(x, s.arch, Taken(e, MkEnd(x, s, i))) else s.arch,
          if emits || i.ext.Some? then 0 else if BadMk(x, s, i) then s.tries + 1 else s.tries,
          i.clear || (s.cleared && f'.r.mV && s.f.r.mV))
  }

  // ---------------------------------------------------------------- what every clock keeps

  /** ID holds the first words of the instruction the program is at, and no whole instruction. */
  ghost predicate Gathering(x: Ctx, code: Addr -> Half, s: Front) {
    && (x.isa.len(s.g).Some? ==> |s.g| < x.isa.len(s.g).value)
    && VPc(s) == s.arch.pc
    && (s.g != [] ==> s.f.r.qpc == Plus(s.gPc, 2 * |s.g|))
    && forall i :: 0 <= i < |s.g| ==> s.g[i] == code(Plus(s.gPc, 2 * i))
  }

  function Fold(x: Ctx, a: Arch, out: seq<Taken>): (b: Arch)
    requires ValidRas(a.ras)
    ensures ValidRas(b.ras)
  {
    if out == [] then a else ArchNext(x, Fold(x, a, out[..|out| - 1]), out[|out| - 1])
  }

  /** Every instruction emitted since the start is the one the program is at there. */
  ghost predicate OnPath(x: Ctx, code: Addr -> Half, a: Arch, out: seq<Taken>)
    requires ValidRas(a.ras)
  {
    forall i :: 0 <= i < |out| ==> InstrAt(x.isa, code, Fold(x, a, out[..i]).pc, out[i].e)
  }

  ghost predicate FrontInv(x: Ctx, code: Addr -> Half, s: Front) {
    && ValidF(s.f) && Stream(code, s.f) && (x.c.btb || !s.f.r.mV)
    && (forall k :: 0 <= k < |s.f.q| ==> !s.f.q[k].err)
    && ValidRas(s.ras) && ValidRas(s.start.ras) && s.arch.ras == s.ras
    && Gathering(x, code, s)
    && s.arch == Fold(x, s.start, s.out) && OnPath(x, code, s.start, s.out)
  }

  /** Restarts are paid for by buffer entries, and one by a prediction that a clear found outstanding. */
  ghost predicate Paid(s: Front) {
    && |s.f.btb| == BTB_N
    && s.tries + Count(s.f.btb) + (if s.f.r.mV && s.cleared then 1 else 0) <= BTB_N
    && (s.f.r.mV && !s.cleared ==> s.f.btb[Ix(s.f.r.mF)].v)
  }

  /** Memory answers with the code; no fetch faults. */
  ghost predicate Served(code: Addr -> Half, s: Front, i: FrontIn) {
    Live(s.f.r) && i.ack ==> i.w0 == code(s.f.r.fFa) && (s.f.r.inflN == 2 ==> i.w1 == code(Plus(s.f.r.fFa, 2)))
  }

  /** A redirect has just set the fetch going at `a`: any buffer contents, any return-address stack. */
  ghost predicate FrontInit(s: Front) {
    var r := s.f.r;
    && s.f.q == [] && |s.f.btb| == BTB_N && !r.infl && !r.mV && r.fpc == r.qpc
    && s.g == [] && ValidRas(s.ras) && s.out == [] && s.tries == 0 && !s.cleared
    && s.start == s.arch == Arch(r.qpc, s.ras)
  }

  ghost predicate FrontRun(x: Ctx, code: Addr -> Half, ss: seq<Front>, es: seq<FrontIn>) {
    && ValidIsa(x.isa) && |ss| == |es| + 1 && FrontInit(ss[0])
    && forall i :: 0 <= i < |es| ==>
         && Served(code, ss[i], es[i]) && ValidF(ss[i].f) && ValidRas(ss[i].ras) && ValidRas(ss[i].arch.ras)
         && Consume(x, ss[i], es[i]) <= Avail(ss[i]) && ss[i + 1] == NextFront(x, ss[i], es[i])
  }
}
