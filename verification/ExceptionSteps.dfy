/** EA-fetch's exception-entry and RTE sequences, one clock at a time, and that under every stall and answer timing
  they are the whole entry and the whole RTE.

  A micro-op is taken as committed when it is sent; `ExceptionPipe` proves that later commits make no difference, as the
  sequences wait for them before they read SR and a stack pointer. */
module ExceptionSteps {
  import opened Memory
  import opened Exceptions

  datatype Phase = Start | Exc | Ret | Halted

  /** The x_ and r_ registers; `ev` holds the event's PC, vector, address words and interrupt level.  `bank` is the
    master stack; `rteOdd`: the entry is for an RTE's odd PC, which stacks the restored SR with S set. */
  datatype Regs = Regs(ph: Phase, step: nat, k: nat, ev: Ev, fmt: nat, sr: SrReg, sp: Addr, bank: bool, pass2: bool,
                       sp1: Addr, target: Word, pend: bool, rsr: SrReg, rpc: Word, rfmt: nat,
                       rteOdd: bool)

  /** EX cannot take a micro-op; older micro-ops have still to commit; the outstanding read is answered, and with what. */
  datatype In = In(stall: bool, older: bool, ack: bool, data: Word)

  datatype Uop =
    | Push(st: Store)
    | Final(bank: bool, sp: Addr, sr: SrReg, msp2: Option<Addr>, redirect: Option<Word>)

  datatype Act = Act(r: Regs, u: Option<Uop>)

  function BankSp(c: Cpu): Addr { if c.sr.m then c.msp else c.isp }

  // ---------------------------------------------------------------- one clock of an entry

  /** The event of an odd handler address: an address error on top of the entry, whose SR and stack stand. */
  function AddressError(e: Ev, target: Word): Ev {
    Event(2, 3, Word(0, 0, e.vec / 64, e.vec * 4 % 256), target.(b0 := target.b0 / 2 * 2), e.ipc, e.rest, false, e.lvl, ZERO)
  }

  function FrameDone(r: Regs): Regs {
    if r.ev.irq && r.sr.m && !r.pass2 then
      r.(pass2 := true, sp1 := r.sp, fmt := 1, sr := r.sr.(s := true), bank := false, k := 0, step := 6)
    else r.(k := r.k + 1, step := 3)
  }

  function FinalOf(r: Regs): Uop {
    Final(r.bank, r.sp,
          Sr(false, false, true, r.sr.m && !r.pass2, if r.ev.irq then r.ev.lvl else r.sr.mask, r.sr.ccr),
          if r.pass2 then Some(r.sp1) else None, if r.target.b0 % 2 == 0 then Some(r.target) else None)
  }

  predicate ValidRegs(r: Regs) { r.fmt < 16 && (r.ph == Exc && (r.step == 0 || r.step == 6) ==> r.k < FrameSize(r.fmt) / 4) }

  function Latched(r: Regs, c: Cpu): SrReg { if r.rteOdd then c.sr.(s := true) else c.sr }

  function EntryClock(r: Regs, c: Cpu, i: In): Act
    requires ValidRegs(r) && r.ph == Exc
  {
    if r.step == 5 then
      if i.older then Act(r, None)
      else
        Act(r.(pass2 := false, rteOdd := false, sr := Latched(r, c), bank := c.sr.m,
               sp := Down(BankSp(c), FrameSize(r.fmt)), step := 0, k := 0), None)
    else if r.step == 0 then
      if i.stall then Act(r, None)
      else
        var u := Push(FrameStore(r.ev, r.fmt, r.sr, r.sp, r.k));
        Act(if r.k + 1 == FrameSize(r.fmt) / 4 then FrameDone(r) else r.(k := r.k + 1), Some(u))
    else if r.step == 6 then Act(r.(sp := Down(c.isp, 8), step := 0), None)
    else if r.step == 3 then
      if !r.pend then Act(r.(pend := true), None)
      else if i.ack then Act(r.(pend := false, target := i.data, step := 4), None)
      else Act(r, None)
    else if i.stall then Act(r, None)
    else if r.target.b0 % 2 == 0 then Act(r.(ph := Start, pass2 := false), Some(FinalOf(r)))
    else if r.ev.vec == 2 || r.ev.vec == 3 then Act(r.(ph := Halted), Some(FinalOf(r)))
    else Act(r.(ev := AddressError(r.ev, r.target), fmt := 2, step := 5), Some(FinalOf(r)))
  }

  function Begin(r: Regs, e: Ev): Regs { r.(ph := Exc, step := 5, ev := e, fmt := e.fmt, pend := false) }

  // ---------------------------------------------------------------- one clock of an RTE

  /** SR, PC and format word in turn; then of a format $7 frame the EA and the SSW; then the micro-op. */
  function RteRead(sp: Addr, step: nat): Read
    requires step <= 4
  {
    if step == 0 then Read(sp, W, 5) else if step == 1 then Read(Plus(sp, 2), L, 5) else if step == 2 then Read(Plus(sp, 6), W, 5)
    else if step == 3 then Read(Plus(sp, 8), L, 5) else Read(Plus(sp, 12), W, 5)
  }

  function RteTake(r: Regs, w: Word): Regs {
    var r1 := if r.step == 0 then r.(rsr := SrOf(w.b1, w.b0)) else if r.step == 1 then r.(rpc := w)
              else if r.step == 2 then r.(rfmt := w.b1 / 16) else r;
    r1.(step := r.step + 1, pend := false)
  }

  function EvenPc(w: Word): (v: Word)
    ensures v.b0 % 2 == 0
  {
    w.(b0 := w.b0 / 2 * 2)
  }

  /** The exceptions an RTE itself can take: an unknown format, not being in supervisor mode, and an odd PC in the frame. */
  function FormatErrorAt(own: Word): Ev {
    Event(0, 14, EvenPc(own), ZERO, ZERO, seq(13, _ => ZERO), false, 0, ZERO)
  }

  function PrivilegeAt(own: Word): Ev {
    Event(0, 8, EvenPc(own), ZERO, ZERO, seq(13, _ => ZERO), false, 0, ZERO)
  }

  function OddPcAt(own: Word, odd: Word): Ev {
    Event(2, 3, EvenPc(own), EvenPc(odd), ZERO, seq(13, _ => ZERO), false, 0, ZERO)
  }

  /** `rpcOf` is the RTE's own PC. */
  function RteClock(r: Regs, c: Cpu, i: In, rpcOf: Word): Act {
    if r.step <= 2 || (r.step <= 4 && r.rfmt == 7) then
      if !r.pend then Act(r.(pend := true), None)
      else if i.ack then Act(RteTake(r, i.data), None)
      else Act(r, None)
    else if !GoodFormat(r.rfmt) then
      Act(Begin(r, FormatErrorAt(rpcOf)), None)
    else if i.stall then Act(r, None)
    else
      var go := r.rfmt != 1 && r.rpc.b0 % 2 == 0;
      var u := Final(c.sr.m, Plus(BankSp(c), FrameSize(r.rfmt)), r.rsr, None, if go then Some(r.rpc) else None);
      if go || r.rfmt == 1 then Act(r.(ph := Start), Some(u))
      else
        Act(Begin(r.(rteOdd := true), OddPcAt(rpcOf, r.rpc)), Some(u))
  }

  function BeginRte(r: Regs): Regs { r.(ph := Ret, step := 0, pend := false) }

  /** An RTE at the start of its first frame or of the next one. */
  function StartRte(r: Regs, c: Cpu, i: In, rpcOf: Word): Regs {
    if i.older then r else if !c.sr.s then Begin(r, PrivilegeAt(rpcOf)) else BeginRte(r)
  }

  // ---------------------------------------------------------------- commit

  ghost function Commit(c: Cpu, u: Option<Uop>): Cpu {
    match u
    case None => c
    case Some(Push(s)) => c.(m := Apply(c.x, c.m, s))
    case Some(Final(bank, sp, sr, msp2, redirect)) =>
      var c1 := if bank then c.(msp := sp, sr := sr) else c.(isp := sp, sr := sr);
      var c2 := if msp2.Some? then c1.(msp := msp2.value) else c1;
      if redirect.Some? then c2.(pc := redirect.value) else c2
  }

  /** The sequences as the clocked block runs them. */
  class FrameSequencer {
    var r: Regs

    constructor (r0: Regs)
      ensures r == r0
    {
      r := r0;
    }

    method TakeException(e: Ev)
      modifies this
      ensures r == Begin(old(r), e)
    {
      r := r.(ph := Exc, step := 5, pend := false);
      r := r.(ev := e, fmt := e.fmt);
    }

    /** A frame longword goes out. */
    method PushWord() returns (u: Uop)
      requires ValidRegs(r) && r.ph == Exc && r.step == 0
      modifies this
      ensures var o := old(r);
              && u == Push(FrameStore(o.ev, o.fmt, o.sr, o.sp, o.k))
              && r == if o.k + 1 == FrameSize(o.fmt) / 4 then FrameDone(o) else o.(k := o.k + 1)
    {
      u := Push(FrameStore(r.ev, r.fmt, r.sr, r.sp, r.k));
      if r.k + 1 == FrameSize(r.fmt) / 4 {
        if r.ev.irq && r.sr.m && !r.pass2 {
          r := r.(pass2 := true, sp1 := r.sp, bank := false, step := 6);
          r := r.(fmt := 1, sr := r.sr.(s := true), k := 0);
        } else {
          r := r.(step := 3, k := r.k + 1);
        }
      } else {
        r := r.(k := r.k + 1);
      }
    }

    method StepEntry(c: Cpu, i: In) returns (u: Option<Uop>)
      requires ValidRegs(r) && r.ph == Exc
      modifies this
      ensures Act(r, u) == EntryClock(old(r), c, i)
    {
      hide FrameDone, FrameStore, FinalOf, AddressError, FrameSize;
      u := None;
      if r.step == 5 {
        if !i.older {
          r := r.(pass2 := false, sr := Latched(r, c), bank := c.sr.m, sp := Down(BankSp(c), FrameSize(r.fmt)));
          r := r.(rteOdd := false, step := 0, k := 0);
        }
      } else if r.step == 0 {
        if !i.stall {
          var p := PushWord();
          u := Some(p);
        }
      } else if r.step == 6 {
        r := r.(sp := Down(c.isp, 8), step := 0);
      } else if r.step == 3 {
        if !r.pend {
          r := r.(pend := true);
        } else if i.ack {
          r := r.(pend := false, target := i.data, step := 4);
        }
      } else if !i.stall {
        u := Some(FinalOf(r));
        if r.target.b0 % 2 == 0 {
          r := r.(ph := Start, pass2 := false);
        } else if r.ev.vec == 2 || r.ev.vec == 3 {
          r := r.(ph := Halted);
        } else {
          r := r.(ev := AddressError(r.ev, r.target), fmt := 2, step := 5);
        }
      }
    }

    /** An answer of the RTE's reads, into the register it is for. */
    method Take(w: Word)
      modifies this
      ensures r == RteTake(old(r), w)
    {
      if r.step == 0 {
        r := r.(rsr := SrOf(w.b1, w.b0));
      } else if r.step == 1 {
        r := r.(rpc := w);
      } else if r.step == 2 {
        r := r.(rfmt := w.b1 / 16);
      }
      r := r.(step := r.step + 1, pend := false);
    }

    method StepStart(c: Cpu, i: In, rpcOf: Word)
      modifies this
      ensures r == StartRte(old(r), c, i, rpcOf)
    {
      if i.older {
      } else if !c.sr.s {
        TakeException(PrivilegeAt(rpcOf));
      } else {
        r := r.(ph := Ret, step := 0, pend := false);
      }
    }

    method StepRte(c: Cpu, i: In, rpcOf: Word) returns (u: Option<Uop>)
      modifies this
      ensures Act(r, u) == RteClock(old(r), c, i, rpcOf)
    {
      hide SrOf, FrameSize, RteTake, Plus, Begin;
      u := None;
      if r.step <= 2 || (r.step <= 4 && r.rfmt == 7) {
        if !r.pend {
          r := r.(pend := true);
        } else if i.ack {
          Take(i.data);
        }
      } else if !GoodFormat(r.rfmt) {
        TakeException(FormatErrorAt(rpcOf));
      } else if !i.stall {
        var go := r.rfmt != 1 && r.rpc.b0 % 2 == 0;
        u := Some(Final(c.sr.m, Plus(BankSp(c), FrameSize(r.rfmt)), r.rsr, None, if go then Some(r.rpc) else None));
        if go || r.rfmt == 1 {
          r := r.(ph := Start);
        } else {
          r := r.(rteOdd := true);
          TakeException(OddPcAt(rpcOf, r.rpc));
        }
      }
    }
  }

  // ---------------------------------------------------------------- the entry under every timing

  /** The entry's frame without the throwaway one, its first `k` longwords. */
  ghost function Pass1(c0: Cpu, e: Ev, k: nat): Mem
    requires k <= FrameSize(e.fmt) / 4
  {
    ApplyAll(c0.x, c0.m, FrameStores(e, e.fmt, c0.sr, Down(BankSp(c0), FrameSize(e.fmt)), k))
  }

  ghost function Pass2(c0: Cpu, e: Ev, k: nat): Mem
    requires k <= 2
  {
    ApplyAll(c0.x, Pass1(c0, e, FrameSize(e.fmt) / 4), FrameStores(e, 1, c0.sr.(s := true), Down(c0.isp, 8), k))
  }

  /** `r` is in the course of entering `e` from `c0`, and `c` has what has been stacked so far. */
  ghost predicate Entering(c0: Cpu, e: Ev, r: Regs, c: Cpu) {
    && r.ph == Exc && r.ev == e && ValidRegs(r)
    && c == c0.(m := c.m, sr := c.sr) && (c0.sr == c.sr || c0.sr == c.sr.(s := true))
    && (r.step == 5 || r.step == 0 || r.step == 6 || r.step == 3 || r.step == 4)
    && (r.step == 5 ==> c.m == c0.m && r.fmt == e.fmt && c0.sr == Latched(r, c))
    && (r.step != 5 ==> !r.rteOdd)
    && (r.step != 5 ==>
          if r.pass2 then
            && TwoFrames(c0, e) && r.fmt == 1 && r.sr == c0.sr.(s := true) && !r.bank && r.sp1 == Down(c0.msp, FrameSize(e.fmt))
            && (r.step != 6 ==> r.sp == Down(c0.isp, 8))
            && c.m == Pass2(c0, e, if r.step == 6 then 0 else if r.step == 0 then r.k else 2)
            && (r.step == 6 ==> r.k == 0)
          else
            && r.step != 6 && r.fmt == e.fmt && r.sr == c0.sr && r.bank == c0.sr.m
            && r.sp == Down(BankSp(c0), FrameSize(e.fmt))
            && c.m == Pass1(c0, e, if r.step == 0 then r.k else FrameSize(e.fmt) / 4)
            && (r.step == 3 || r.step == 4 ==> !TwoFrames(c0, e)))
  }

  lemma Pushes(x: Pages, e: Ev, fmt: nat, sr: SrReg, sp: Addr, m: Mem, k: nat)
    requires fmt < 16 && k < FrameSize(fmt) / 4
    ensures ApplyAll(x, m, FrameStores(e, fmt, sr, sp, k + 1))
              == Apply(x, ApplyAll(x, m, FrameStores(e, fmt, sr, sp, k)), FrameStore(e, fmt, sr, sp, k))
  {
    hide FrameStore, FrameSize;
    assert FrameStores(e, fmt, sr, sp, k + 1)[..k] == FrameStores(e, fmt, sr, sp, k);
  }

  /** A clock that pushes. */
  lemma PushKeeps(c0: Cpu, e: Ev, r: Regs, c: Cpu)
    requires Entering(c0, e, r, c) && r.step == 0
    ensures var a := EntryClock(r, c, In(false, false, false, ZERO)); Entering(c0, e, a.r, Commit(c, a.u))
  {
    hide FrameStore, Apply, ApplyAll, FrameStores;
    if r.pass2 {
      Pushes(c0.x, e, 1, c0.sr.(s := true), Down(c0.isp, 8), Pass1(c0, e, FrameSize(e.fmt) / 4), r.k);
    } else {
      Pushes(c0.x, e, e.fmt, c0.sr, Down(BankSp(c0), FrameSize(e.fmt)), c0.m, r.k);
      NoPass2(c0, e);
    }
  }

  lemma NoPass2(c0: Cpu, e: Ev)
    ensures Pass2(c0, e, 0) == Pass1(c0, e, FrameSize(e.fmt) / 4) && Pass1(c0, e, 0) == c0.m
  {
  }

  /** Every other clock but the one that sends the last micro-op. */
  lemma ClockKeeps(c0: Cpu, e: Ev, r: Regs, c: Cpu, i: In)
    requires Entering(c0, e, r, c) && r.step != 0 && (r.step != 4 || i.stall)
    ensures var a := EntryClock(r, c, i); a.u == None && Entering(c0, e, a.r, c)
  {
    hide Apply, ApplyAll, FrameStores, Pass1, Pass2, Down;
    NoPass2(c0, e);
    assert FrameSize(e.fmt) / 4 > 0 && FrameSize(1) / 4 == 2;
  }

  /** The last micro-op completes the entry: with an even handler address, exactly what an entry is; with an odd one
    all but the jump, and an address error starts, or the processor halts if this was one. */
  lemma LastEnters(c0: Cpu, e: Ev, r: Regs, c: Cpu, i: In)
    requires Entering(c0, e, r, c) && r.step == 4 && !i.stall
    ensures var a, e1 := EntryClock(r, c, i), e.(target := r.target);
            var c1 := Commit(c, a.u);
            if r.target.b0 % 2 == 0 then a.r.ph == Start && c1 == Enter(c0, e1)
            else
              && c1 == Enter(c0, e1).(pc := c0.pc)
              && (if e.vec == 2 || e.vec == 3 then a.r.ph == Halted
                  else Entering(c1, AddressError(e, r.target), a.r, c1))
  {
    hide Apply, ApplyAll, FrameStores, FrameStore;
    assert FrameSize(1) / 4 == 2 && FrameSize(0) == 8;
    SameFrame(e, r.target, e.fmt, c0.sr, Down(BankSp(c0), FrameSize(e.fmt)), FrameSize(e.fmt) / 4);
    SameFrame(e, r.target, 1, c0.sr.(s := true), Down(c0.isp, 8), 2);
  }

  /** Where the vector points is not in the frame. */
  lemma {:induction false} SameFrame(e: Ev, target: Word, fmt: nat, sr: SrReg, sp: Addr, k: nat)
    requires fmt < 16 && k <= FrameSize(fmt) / 4
    ensures FrameStores(e.(target := target), fmt, sr, sp, k) == FrameStores(e, fmt, sr, sp, k)
  {
    if k > 0 { SameFrame(e, target, fmt, sr, sp, k - 1); }
  }

  lemma BeginEnters(c: Cpu, e: Ev, r: Regs)
    requires !r.rteOdd
    ensures Entering(c, e, Begin(r, e), c)
  {
  }

  ghost function After(r: Regs, c: Cpu, ins: seq<In>, t: nat): (p: (Regs, Cpu))
    requires ValidRegs(r) && t <= |ins|
    ensures ValidRegs(p.0)
  {
    if t == 0 then (r, c)
    else
      var (q, d) := After(r, c, ins, t - 1);
      if q.ph != Exc then (q, d)
      else
        hide FrameStore, Commit;
        StillValid(q, d, ins[t - 1]);
        var a := EntryClock(q, d, ins[t - 1]);
        (a.r, Commit(d, a.u))
  }

  lemma StillValid(r: Regs, c: Cpu, i: In)
    requires ValidRegs(r) && r.ph == Exc
    ensures ValidRegs(EntryClock(r, c, i).r)
  {
    hide FrameStore, FinalOf, Down, FrameSize, AddressError, Latched, FrameDone;
    if r.step == 5 { FitsFrame(r.fmt); } else if r.step == 0 { DoneValid(r); }
  }

  lemma FitsFrame(fmt: nat)
    ensures FrameSize(fmt) / 4 >= 2
  {
  }

  lemma DoneValid(r: Regs)
    requires ValidRegs(r) && r.ph == Exc && r.step == 0
    ensures ValidRegs(FrameDone(r))
  {
  }

  /** On its way through entering `e` from `c0`, or through with it, or halted by an odd handler address. */
  ghost predicate Direct(c0: Cpu, e: Ev, r: Regs, c: Cpu) {
    || Entering(c0, e, r, c)
    || (r.ph == Start && r.target.b0 % 2 == 0 && c == Enter(c0, e.(target := r.target)))
    || (r.ph == Halted && r.target.b0 % 2 == 1 && (e.vec == 2 || e.vec == 3))
  }

  /** What an odd handler address `w` leaves: the entry's SR and stacks, and no jump. */
  ghost function AtOdd(c0: Cpu, e: Ev, w: Word): Cpu { Enter(c0, e.(target := w)).(pc := c0.pc) }

  ghost predicate OnOdd(c0: Cpu, e: Ev, w: Word, r: Regs, c: Cpu) {
    w.b0 % 2 == 1 && e.vec != 2 && e.vec != 3 && Direct(AtOdd(c0, e, w), AddressError(e, w), r, c)
  }

  ghost predicate Sound(c0: Cpu, e: Ev, r: Regs, c: Cpu) {
    Direct(c0, e, r, c) || exists w: Word :: OnOdd(c0, e, w, r, c)
  }

  lemma EntryStep(c0: Cpu, e: Ev, r: Regs, c: Cpu, i: In)
    requires Entering(c0, e, r, c)
    ensures var a := EntryClock(r, c, i);
            Direct(c0, e, a.r, Commit(c, a.u))
            || (a.r.ph == Exc && OnOdd(c0, e, r.target, a.r, Commit(c, a.u)))
  {
    hide Entering, Enter, FrameStore, FinalOf;
    ExcNow(c0, e, r, c);
    if r.step == 0 && !i.stall {
      PushKeeps(c0, e, r, c);
    } else if r.step == 0 {
    } else if r.step == 4 && !i.stall {
      LastEnters(c0, e, r, c, i);
    } else {
      ClockKeeps(c0, e, r, c, i);
    }
  }

  lemma ExcNow(c0: Cpu, e: Ev, r: Regs, c: Cpu)
    requires Entering(c0, e, r, c)
    ensures r.ph == Exc && r.ev == e && ValidRegs(r) && (r.step == 5 || r.step == 0 || r.step == 6 || r.step == 3 || r.step == 4)
  {
  }

  /** An address error's own odd handler address halts: there is no third entry. */
  lemma AddressErrorLast(e: Ev, w: Word)
    ensures AddressError(e, w).vec == 3
  {
  }

  lemma SoundStep(c0: Cpu, e: Ev, r: Regs, c: Cpu, i: In)
    requires Sound(c0, e, r, c) && r.ph == Exc && ValidRegs(r)
    ensures var a := EntryClock(r, c, i); Sound(c0, e, a.r, Commit(c, a.u))
  {
    hide Entering, Enter, EntryClock, Commit, AddressError;
    if Direct(c0, e, r, c) {
      EntryStep(c0, e, r, c, i);
    } else {
      var w: Word :| OnOdd(c0, e, w, r, c);
      AddressErrorLast(e, w);
      if Entering(AtOdd(c0, e, w), AddressError(e, w), r, c) {
        EntryStep(AtOdd(c0, e, w), AddressError(e, w), r, c, i);
      }
      var a := EntryClock(r, c, i);
      assert OnOdd(c0, e, w, a.r, Commit(c, a.u));
    }
  }

  /** Whatever the stalls and the time the vector takes: the sequence stacks and sets what an entry does, and nothing
    else; an odd handler address puts an address error on top of it, once. */
  lemma {:induction false} EntryIsSound(c0: Cpu, e: Ev, r: Regs, ins: seq<In>, t: nat)
    requires !r.rteOdd && t <= |ins|
    ensures var (q, c) := After(Begin(r, e), c0, ins, t); Sound(c0, e, q, c)
  {
    hide Entering, Enter, EntryClock, Commit, Sound;
    if t == 0 {
      BeginEnters(c0, e, r);
      EnteringIsSound(c0, e, Begin(r, e), c0);
    } else {
      EntryIsSound(c0, e, r, ins, t - 1);
      var (q, c) := After(Begin(r, e), c0, ins, t - 1);
      if q.ph == Exc { SoundStep(c0, e, q, c, ins[t - 1]); }
    }
  }

  lemma EnteringIsSound(c0: Cpu, e: Ev, r: Regs, c: Cpu)
    requires Entering(c0, e, r, c)
    ensures Sound(c0, e, r, c)
  {
    hide Entering;
  }

  // ---------------------------------------------------------------- what the handler starts with

  lemma EnterSets(c: Cpu, e: Ev)
    ensures var d := Enter(c, e);
            && d.sr.s && !d.sr.t1 && !d.sr.t0 && d.sr.m == (c.sr.m && !e.irq)
            && d.sr.mask == (if e.irq then e.lvl else c.sr.mask) && d.sr.ccr == c.sr.ccr && d.pc == e.target
  {
  }

  /** An odd handler address: an address error, format $2, at the vector's own offset, with the address made even. */
  lemma AddressErrorIs(e: Ev, w: Word)
    ensures var a := AddressError(e, w);
            && a.fmt == 2 && a.vec == 3 && !a.irq
            && a.pc.b3 == 0 && a.pc.b2 == 0 && a.pc.b1 * 256 + a.pc.b0 == 4 * e.vec
            && a.addr.b3 == w.b3 && a.addr.b2 == w.b2 && a.addr.b1 == w.b1 && a.addr.b0 == w.b0 - w.b0 % 2
  {
  }

  lemma AnswerBytes(c: Cpu, r: Read, w: Word)
    requires Answers(c.x, c.m, r, w) && r.size != B && r.fc == 5
    ensures if r.size == W then w.b1 == See(c, r.addr) && w.b0 == See(c, Plus(r.addr, 1))
            else w == Word(See(c, r.addr), See(c, Plus(r.addr, 1)), See(c, Plus(r.addr, 2)), See(c, Plus(r.addr, 3)))
  {
    assert Plus(r.addr, 0) == r.addr;
    hide Plus, Phys;
    forall k | 0 <= k < Bytes(r.size) ensures Lane(w, Bytes(r.size) - 1 - k) == See(c, Plus(r.addr, k)) {
      assert RdPhys(c.x, r, k) == At(c.x, Plus(r.addr, k));
    }
  }

  /** The vector's longword: memory answers the read of it with what it holds. */
  ghost predicate VectorHonest(vbr: Addr, r: Regs, c: Cpu, i: In) {
    r.ph == Exc && r.step == 3 && r.pend && i.ack ==> Answers(c.x, c.m, Read(Plus(vbr, 4 * r.ev.vec), L, 5), i.data)
  }

  ghost predicate VectorsHonest(vbr: Addr, r: Regs, c: Cpu, ins: seq<In>)
    requires ValidRegs(r)
  {
    forall t :: 0 <= t < |ins| ==> VectorHonest(vbr, After(r, c, ins, t).0, After(r, c, ins, t).1, ins[t])
  }

  /** The handler's address, once read, is the vector's longword; and execution goes on there. */
  ghost predicate Vectored(vbr: Addr, r: Regs, c: Cpu) {
    && (r.ph == Exc ==> r.step in {0, 3, 4, 5, 6})
    && (r.ph == Exc && r.step == 4 ==> r.target == LongAt(c, Plus(vbr, 4 * r.ev.vec)))
    && (r.ph == Start ==> c.pc == r.target == LongAt(c, Plus(vbr, 4 * r.ev.vec)))
  }

  lemma VectoredStep(vbr: Addr, r: Regs, c: Cpu, i: In)
    requires ValidRegs(r) && r.ph == Exc && Vectored(vbr, r, c) && VectorHonest(vbr, r, c, i)
    ensures var a := EntryClock(r, c, i); Vectored(vbr, a.r, Commit(c, a.u))
  {
    hide FrameStore, Apply, Down, Latched, AddressError, FrameSize, Answers, Plus, Phys, FinalOf, LongAt;
    if r.step == 4 {
      VectorGoes(vbr, r, c, i);
    } else if r.step == 3 && r.pend && i.ack {
      AnswerBytes(c, Read(Plus(vbr, 4 * r.ev.vec), L, 5), i.data);
      LongIs(c, Plus(vbr, 4 * r.ev.vec));
    }
  }

  lemma LongIs(c: Cpu, a: Addr)
    ensures LongAt(c, a) == Word(See(c, a), See(c, Plus(a, 1)), See(c, Plus(a, 2)), See(c, Plus(a, 3)))
  {
  }

  lemma VectorGoes(vbr: Addr, r: Regs, c: Cpu, i: In)
    requires ValidRegs(r) && r.ph == Exc && r.step == 4 && Vectored(vbr, r, c)
    ensures var a := EntryClock(r, c, i); Vectored(vbr, a.r, Commit(c, a.u))
  {
    hide FrameStore, AddressError, FrameSize, Plus, Phys;
  }

  lemma {:induction false} RunVectored(vbr: Addr, c0: Cpu, e: Ev, r: Regs, ins: seq<In>, t: nat)
    requires t <= |ins| && VectorsHonest(vbr, Begin(r, e), c0, ins)
    ensures Vectored(vbr, After(Begin(r, e), c0, ins, t).0, After(Begin(r, e), c0, ins, t).1)
  {
    hide EntryClock, Commit, VectorHonest, Vectored;
    if t == 0 {
      NotYetVectored(vbr, c0, e, r);
    } else {
      RunVectored(vbr, c0, e, r, ins, t - 1);
      var (q, c) := After(Begin(r, e), c0, ins, t - 1);
      if q.ph == Exc { VectoredStep(vbr, q, c, ins[t - 1]); }
    }
  }

  lemma NotYetVectored(vbr: Addr, c0: Cpu, e: Ev, r: Regs)
    ensures Vectored(vbr, Begin(r, e), c0)
  {
  }

  /** Whatever the timing, when an entry's sequence ends in a handler, with or without an odd handler address before it:
    S is set and T clear, M kept but for an interrupt, the mask is an interrupt's level or as it was, the condition
    codes are as they were, and execution goes on at the address in the vector table. */
  lemma EntryEnds(vbr: Addr, c0: Cpu, e: Ev, r: Regs, ins: seq<In>, t: nat)
    requires !r.rteOdd && t <= |ins| && VectorsHonest(vbr, Begin(r, e), c0, ins)
    requires After(Begin(r, e), c0, ins, t).0.ph == Start
    ensures var (q, c) := After(Begin(r, e), c0, ins, t);
            && c.sr.s && !c.sr.t1 && !c.sr.t0 && c.sr.m == (c0.sr.m && !e.irq)
            && c.sr.mask == (if e.irq then e.lvl else c0.sr.mask) && c.sr.ccr == c0.sr.ccr
            && (q.ev.vec == e.vec || q.ev.vec == 3) && c.pc == LongAt(c, Plus(vbr, 4 * q.ev.vec)) && c.pc.b0 % 2 == 0
  {
    hide EntryClock, Commit, AddressError, Entering, Enter, VectorsHonest, After, LongAt;
    EntryIsSound(c0, e, r, ins, t);
    RunVectored(vbr, c0, e, r, ins, t);
    EntryVector(c0, e, r, ins, t);
    var (q, c) := After(Begin(r, e), c0, ins, t);
    if Direct(c0, e, q, c) {
      NotEntering(c0, e, q, c);
      EnterSets(c0, e.(target := q.target));
    } else {
      var w: Word :| OnOdd(c0, e, w, q, c);
      EnterSets(c0, e.(target := w));
      AddressErrorIs(e, w);
      NotEntering(AtOdd(c0, e, w), AddressError(e, w), q, c);
      EnterSets(AtOdd(c0, e, w), AddressError(e, w).(target := q.target));
    }
  }

  lemma NotEntering(c0: Cpu, e: Ev, r: Regs, c: Cpu)
    requires r.ph == Start
    ensures !Entering(c0, e, r, c)
  {
  }

  lemma VectorStays(r: Regs, c: Cpu, i: In)
    requires ValidRegs(r) && r.ph == Exc
    ensures EntryClock(r, c, i).r.ev.vec in {r.ev.vec, 3}
  {
    hide FrameStore, FrameSize, Down, Latched, FinalOf;
  }

  /** The vector taken is the event's, or an address error's. */
  lemma {:induction false} EntryVector(c0: Cpu, e: Ev, r: Regs, ins: seq<In>, t: nat)
    requires t <= |ins|
    ensures After(Begin(r, e), c0, ins, t).0.ev.vec in {e.vec, 3}
  {
    hide Commit, FrameStore, FrameSize, Down, Latched, FinalOf, EntryClock;
    if t > 0 {
      EntryVector(c0, e, r, ins, t - 1);
      var (q, c) := After(Begin(r, e), c0, ins, t - 1);
      if q.ph == Exc { VectorStays(q, c, ins[t - 1]); }
    }
  }

  // ---------------------------------------------------------------- progress

  function Longs(fmt: nat): (n: nat)
    ensures 2 <= n <= 15
  {
    FrameSize(fmt) / 4
  }

  /** Clocks an entry still takes when nothing holds it up; an odd handler address starts a second one. */
  function EntryLeft(r: Regs): int {
    if r.ph != Exc then 0
    else
      (if r.ev.vec == 2 || r.ev.vec == 3 then 0 else 100)
      + (if r.step == 5 then 40
         else if r.step == 0 then (if r.pass2 then 9 else 20) + Longs(r.fmt) - r.k
         else if r.step == 6 then 12
         else if r.step == 3 then if r.pend then 3 else 4
         else 2)
  }

  lemma PushMoves(r: Regs, c: Cpu, i: In)
    requires ValidRegs(r) && r.ph == Exc && r.step == 0 && !i.stall
    ensures 0 < EntryLeft(EntryClock(r, c, i).r) < EntryLeft(r) <= 140
  {
    assert r.k < Longs(r.fmt);
    hide FrameStore, FrameSize, Longs;
    if r.k + 1 < Longs(r.fmt) {
      assert EntryClock(r, c, i).r == r.(k := r.k + 1) by { NotLastPush(r, c, i); }
    } else {
      assert EntryClock(r, c, i).r == FrameDone(r) by { NotLastPush(r, c, i); }
    }
  }

  lemma NotLastPush(r: Regs, c: Cpu, i: In)
    requires ValidRegs(r) && r.ph == Exc && r.step == 0 && !i.stall
    ensures EntryClock(r, c, i).r == if r.k + 1 == Longs(r.fmt) then FrameDone(r) else r.(k := r.k + 1)
  {
    hide FrameStore, FrameSize, FrameDone;
  }

  lemma OtherMoves(r: Regs, c: Cpu, i: In)
    requires ValidRegs(r) && r.ph == Exc && r.step in {3, 4, 5, 6} && !i.stall && !i.older && i.ack
    requires r.step == 6 ==> r.pass2 && r.fmt == 1 && r.k == 0
    ensures 0 <= EntryLeft(EntryClock(r, c, i).r) < EntryLeft(r) <= 140
  {
    assert Longs(1) == 2;
    hide FinalOf, Down, Latched, FrameSize, Longs;
  }

  /** A clock with no stall, nothing older to commit, and the vector's read answered brings the entry nearer its end. */
  lemma EntryMoves(c0: Cpu, e: Ev, r: Regs, c: Cpu, i: In)
    requires Entering(c0, e, r, c) && !i.stall && !i.older && i.ack
    ensures 0 <= EntryLeft(EntryClock(r, c, i).r) < EntryLeft(r) <= 140
  {
    hide Entering, EntryClock, EntryLeft;
    ExcNow(c0, e, r, c);
    SecondFrame(c0, e, r, c);
    if r.step == 0 { PushMoves(r, c, i); } else { OtherMoves(r, c, i); }
  }

  lemma SecondFrame(c0: Cpu, e: Ev, r: Regs, c: Cpu)
    requires Entering(c0, e, r, c)
    ensures r.step == 6 ==> r.pass2 && r.fmt == 1 && r.k == 0
  {
    hide FrameStores, ApplyAll, FrameSize, Down;
  }

  /** Clocks an RTE still takes on one frame. */
  function RteLeft(r: Regs): int { if r.ph == Ret then 2 * (6 - r.step) + if r.pend then 0 else 1 else 0 }

  lemma RteMoves(r: Regs, c: Cpu, i: In, own: Word)
    requires r.ph == Ret && r.step <= 5 && !i.stall && i.ack
    ensures var a := RteClock(r, c, i, own); a.r.ph != Ret || (a.r.step <= 5 && 0 < RteLeft(a.r) < RteLeft(r) <= 13)
  {
    hide SrOf, FrameSize, Plus;
  }

  // ---------------------------------------------------------------- the RTE under every timing

  /** The fields of the frame read so far are the frame's. */
  ghost predicate Returning(c: Cpu, r: Regs) {
    var sp := BankSp(c);
    && r.ph == Ret && !r.rteOdd
    && (r.step >= 1 ==> r.rsr == SrOf(See(c, sp), See(c, Plus(sp, 1))))
    && (r.step >= 2 ==> r.rpc == StackedPc(c))
    && (r.step >= 3 ==> r.rfmt == See(c, Plus(sp, 6)) / 16)
  }

  /** The read port answers from memory. */
  ghost predicate Honest(c: Cpu, r: Regs, i: In) {
    r.step <= 4 && r.pend && i.ack ==> Answers(c.x, c.m, RteRead(BankSp(c), r.step), i.data)
  }

  lemma RteBegins(c: Cpu, r: Regs)
    requires !r.rteOdd
    ensures Returning(c, BeginRte(r))
  {
  }

  lemma RteTakes(c: Cpu, r: Regs, i: In)
    requires Returning(c, r) && Honest(c, r, i) && r.step <= 4 && r.pend && i.ack
    ensures Returning(c, RteTake(r, i.data))
  {
    hide Answers, SrOf, See;
    var rd := RteRead(BankSp(c), r.step);
    AnswerBytes(c, rd, i.data);
    var sp := BankSp(c);
    PlusPlus(sp, 2, 1);
    PlusPlus(sp, 2, 2);
    PlusPlus(sp, 2, 3);
    PlusPlus(sp, 6, 1);
    hide Plus;
  }

  function Supervised(c: Cpu): Cpu { c.(sr := c.sr.(s := true)) }

  /** A clock of an RTE: it goes on reading, or ends as `RteFrame` says - at the stacked PC, at the next frame with
    this one off its stack, with an address error for an odd PC, or with a format error for a format unknown. */
  lemma RteIsRte(c: Cpu, r: Regs, i: In, pc: Word)
    requires Returning(c, r) && Honest(c, r, i)
    ensures var a := RteClock(r, c, i, pc);
            var c1 := Commit(c, a.u);
            if a.r.ph == Ret then a.u == None && Returning(c, a.r)
            else
              && (a.r.ph == Start ==> !a.r.rteOdd && (r.rfmt == 1 <==> RteFrame(c).NextFrame?))
              && match RteFrame(c)
              case Resumed(d) => a.r.ph == Start && c1 == d
              case NextFrame(d) => a.r.ph == Start && c1 == d
              case OddPc(d) => c1 == d && Entering(Supervised(c1), OddPcAt(pc, StackedPc(c)), a.r, c1)
              case FormatError => c1 == c && Entering(c, FormatErrorAt(pc), a.r, c)
  {
    hide Answers, SrOf, Entering, FrameSize, See, Plus, StackedPc, EvenPc;
    if r.step <= 2 || (r.step <= 4 && r.rfmt == 7) {
      if r.pend && i.ack {
        RteTakes(c, r, i);
      }
    } else if !GoodFormat(r.rfmt) || !i.stall {
      var a := RteClock(r, c, i, pc);
      if a.r.ph == Exc { RteTraps(r, a.r, Commit(c, a.u)); }
    }
  }

  lemma RteTraps(r: Regs, q: Regs, c: Cpu)
    requires q == Begin(r.(rteOdd := q.rteOdd), q.ev)
    ensures Entering(c.(sr := Latched(q, c)), q.ev, q, c)
  {
  }

  // ---------------------------------------------------------------- whole runs of an RTE

  datatype Stage = Popping | Gone | Trapped

  /** An RTE under way: the registers, the processor, how many throwaway frames it has taken off, and whether it is
    still at it, has gone to a stacked PC, or has taken an exception of its own. */
  datatype RteRun = RteRun(r: Regs, c: Cpu, n: nat, stage: Stage)

  /** `own` is the RTE's address. */
  ghost function RteNext(s: RteRun, i: In, own: Word): (t: RteRun)
    requires ValidRegs(s.r)
    ensures ValidRegs(t.r)
  {
    if s.stage.Gone? then s
    else if s.stage.Trapped? then
      if s.r.ph != Exc then s
      else
        hide FrameStore, Commit;
        StillValid(s.r, s.c, i);
        var a := EntryClock(s.r, s.c, i);
        s.(r := a.r, c := Commit(s.c, a.u))
    else if s.r.ph == Ret then
      hide RteClock, Commit;
      RteValid(s.r, s.c, i, own);
      var a := RteClock(s.r, s.c, i, own);
      RteRun(a.r, Commit(s.c, a.u), if a.r.ph == Start && s.r.rfmt == 1 then s.n + 1 else s.n,
             if a.r.ph == Exc then Trapped else if a.r.ph == Start && s.r.rfmt != 1 then Gone else Popping)
    else
      var q := StartRte(s.r, s.c, i, own);
      s.(r := q, stage := if q.ph == Exc then Trapped else Popping)
  }

  lemma RteValid(r: Regs, c: Cpu, i: In, own: Word)
    requires ValidRegs(r) && r.ph == Ret
    ensures ValidRegs(RteClock(r, c, i, own).r)
  {
    hide SrOf, Plus, FrameSize, EvenPc;
  }

  ghost function RteAfter(r: Regs, c: Cpu, own: Word, ins: seq<In>, t: nat): (s: RteRun)
    requires ValidRegs(r) && r.ph == Start && t <= |ins|
    ensures ValidRegs(s.r)
  {
    if t == 0 then RteRun(r, c, 0, Popping) else RteNext(RteAfter(r, c, own, ins, t - 1), ins[t - 1], own)
  }

  ghost predicate AllHonest(r: Regs, c: Cpu, own: Word, ins: seq<In>)
    requires ValidRegs(r) && r.ph == Start
  {
    forall t :: 0 <= t < |ins| ==>
      var s := RteAfter(r, c, own, ins, t); s.r.ph == Ret ==> Honest(s.c, s.r, ins[t])
  }

  /** The exception that frame `d` gives the RTE at `own`, if any, and the processor it is taken from. */
  ghost function Trap(d: Cpu, own: Word): Option<(Cpu, Ev)> {
    if !d.sr.s then Some((d, PrivilegeAt(own)))
    else
      match RteFrame(d)
      case FormatError => Some((d, FormatErrorAt(own)))
      case OddPc(d1) => Some((Supervised(d1), OddPcAt(own, StackedPc(d))))
      case _ => None
  }

  /** Which they are: a privilege violation or a format error, format $0, or for an odd PC an address error, format $2,
    with that PC made even; all at the RTE's own address. */
  lemma TrapIs(d: Cpu, own: Word)
    ensures match Trap(d, own)
            case None => d.sr.s && (RteFrame(d).Resumed? || RteFrame(d).NextFrame?)
            case Some(p) =>
              && !p.1.irq && p.1.pc == own.(b0 := own.b0 - own.b0 % 2)
              && (if !d.sr.s then p.0 == d && p.1.vec == 8 && p.1.fmt == 0
                  else if RteFrame(d).FormatError? then p.0 == d && p.1.vec == 14 && p.1.fmt == 0
                  else
                    && RteFrame(d).OddPc? && p.0 == RteFrame(d).c.(sr := RteFrame(d).c.sr.(s := true)) && p.1.vec == 3
                    && p.1.fmt == 2 && p.1.addr == StackedPc(d).(b0 := StackedPc(d).b0 - StackedPc(d).b0 % 2))
  {
    hide RteFrame, StackedPc;
  }

  ghost predicate RteSound(c0: Cpu, own: Word, s: RteRun) {
    && Popped(c0, s.n).Some?
    && var d := Popped(c0, s.n).value;
       match s.stage
       case Popping => s.c == d && !s.r.rteOdd && (s.r.ph == Start || (d.sr.s && Returning(d, s.r)))
       case Gone => d.sr.s && RteFrame(d) == Resumed(s.c)
       case Trapped => Trap(d, own).Some? && Sound(Trap(d, own).value.0, Trap(d, own).value.1, s.r, s.c)
  }

  lemma RteStep(c0: Cpu, own: Word, s: RteRun, i: In)
    requires RteSound(c0, own, s) && ValidRegs(s.r) && (s.stage.Popping? && s.r.ph == Ret ==> Honest(s.c, s.r, i))
    ensures RteSound(c0, own, RteNext(s, i, own))
  {
    hide Sound, RteFrame, Returning, RteClock, EntryClock, Commit, Honest, PrivilegeAt, OddPcAt, FormatErrorAt, StackedPc;
    var d, t := Popped(c0, s.n).value, RteNext(s, i, own);
    match s.stage {
      case Gone =>
      case Trapped =>
        if s.r.ph == Exc { SoundStep(Trap(d, own).value.0, Trap(d, own).value.1, s.r, s.c, i); }
      case Popping =>
        if s.r.ph == Start {
          RteStarts(d, s.r, i, own);
        } else {
          RtePops(c0, own, s, i);
        }
    }
  }

  lemma RteStarts(d: Cpu, r: Regs, i: In, own: Word)
    requires r.ph == Start && !r.rteOdd
    ensures var q := StartRte(r, d, i, own);
            if q.ph == Exc then !d.sr.s && Sound(d, PrivilegeAt(own), q, d)
            else !q.rteOdd && (q.ph == Start || (q.ph == Ret && d.sr.s && Returning(d, q)))
  {
    hide Sound, PrivilegeAt, Entering;
    RteBegins(d, r);
    BeginEnters(d, PrivilegeAt(own), r);
    EnteringIsSound(d, PrivilegeAt(own), Begin(r, PrivilegeAt(own)), d);
  }

  lemma Uncommitted(c: Cpu)
    ensures Commit(c, None) == c
  {
  }

  lemma PhaseIs(c: Cpu, r: Regs)
    requires Returning(c, r)
    ensures r.ph == Ret && !r.rteOdd
  {
  }

  lemma RtePhases(r: Regs, c: Cpu, i: In, own: Word)
    requires r.ph == Ret
    ensures RteClock(r, c, i, own).r.ph in {Start, Exc, Ret}
  {
  }

  lemma RtePops(c0: Cpu, own: Word, s: RteRun, i: In)
    requires RteSound(c0, own, s) && ValidRegs(s.r) && s.stage.Popping? && s.r.ph != Start && (s.r.ph == Ret ==> Honest(s.c, s.r, i))
    ensures RteSound(c0, own, RteNext(s, i, own))
  {
    hide Sound, RteFrame, Returning, RteClock, EntryClock, Commit, Honest, PrivilegeAt, OddPcAt, FormatErrorAt, StackedPc,
         Entering, Supervised;
    var d := Popped(c0, s.n).value;
    PhaseIs(d, s.r);
    RtePhases(s.r, d, i, own);
    RteIsRte(d, s.r, i, own);
    var a := RteClock(s.r, d, i, own);
    var c1 := Commit(d, a.u);
    if a.r.ph == Ret {
      assert c1 == d by { Uncommitted(d); }
      PhaseIs(d, a.r);
    } else {
      match RteFrame(d) {
        case OddPc(_) =>
          ExcNow(Supervised(c1), OddPcAt(own, StackedPc(d)), a.r, c1);
          EnteringIsSound(Supervised(c1), OddPcAt(own, StackedPc(d)), a.r, c1);
        case FormatError =>
          ExcNow(d, FormatErrorAt(own), a.r, d);
          EnteringIsSound(d, FormatErrorAt(own), a.r, d);
        case _ =>
      }
    }
  }

  /** In every run of an RTE, whatever the stalls, the answers' times and the commits waited for between frames: it is
    part of the way through reading the frame that the throwaway frames before it left on top, or has gone where that
    frame says, or is entering, or has entered, the one exception that frame gives. */
  lemma {:induction false} RteRunIsRte(r: Regs, c0: Cpu, own: Word, ins: seq<In>, t: nat)
    requires ValidRegs(r) && r.ph == Start && !r.rteOdd && t <= |ins| && AllHonest(r, c0, own, ins)
    ensures RteSound(c0, own, RteAfter(r, c0, own, ins, t))
  {
    hide Sound, RteFrame, Returning, RteNext, Honest, Trap, ValidRegs;
    if t > 0 {
      RteRunIsRte(r, c0, own, ins, t - 1);
      RteStep(c0, own, RteAfter(r, c0, own, ins, t - 1), ins[t - 1]);
    }
  }

  /** So one that returns through at most a throwaway frame goes where `Rte` says, and where `Rte` says it returns it
    does not end otherwise. */
  lemma RteRunReturns(r: Regs, c0: Cpu, own: Word, ins: seq<In>, t: nat)
    requires ValidRegs(r) && r.ph == Start && !r.rteOdd && t <= |ins| && AllHonest(r, c0, own, ins)
    ensures var s := RteAfter(r, c0, own, ins, t);
            && (s.stage.Gone? && s.n <= 1 ==> Rte(c0) == Some(s.c))
            && (Rte(c0).Some? && !s.stage.Popping? ==> s.stage.Gone? && Rte(c0) == Some(s.c))
  {
    hide Sound, RteFrame, Returning, RteAfter, AllHonest, ValidRegs, PrivilegeAt, OddPcAt, FormatErrorAt, StackedPc, Supervised;
    RteRunIsRte(r, c0, own, ins, t);
    var s := RteAfter(r, c0, own, ins, t);
    if s.n > 0 { PoppedEarlier(c0, 1, s.n); }
    if s.n > 1 { PoppedEarlier(c0, 2, s.n); }
    assert Popped(c0, 0) == Some(c0);
    assert Popped(c0, 1) == if !c0.sr.s then None else match RteFrame(c0) { case NextFrame(d1) => Some(d1) case _ => None };
  }

  lemma {:induction false} PoppedEarlier(c: Cpu, k: nat, n: nat)
    requires k <= n && Popped(c, n).Some?
    ensures Popped(c, k).Some?
  {
    hide RteFrame;
    if k < n { PoppedEarlier(c, k, n - 1); }
  }
}
