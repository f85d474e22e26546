/** EX's multiply and divide: operand set-up, the hold while the unit runs, and the result arm. */
module MultiplyDivide {
  import opened Divider
  import opened Memory

  const T15: nat := 0x8000
  const T16: nat := 0x1_0000

  datatype Ccr = Ccr(x: bool, n: bool, z: bool, v: bool, c: bool)

  /** A MULx or DIVx micro-op: `a` the source, `b` the destination Dl or Dq, `c` the second register Dh or
    Dr; `same` when both destinations name one register. */
  datatype Op = Op(div: bool, sgn: bool, long: bool, wide: bool, a: U32, b: U32, c: U32, same: bool)

  /** What EX hands on: the destination, the second destination where it is written, and the flags. */
  datatype Out = Out(w0: U32, u1: Option<U32>, ccr: Ccr)

  function Sext16(x: U32): U32 {
    var w := x % T16;
    if w >= T15 then w + T32 - T16 else w
  }

  /** The unit's operand pins. */
  function Pins(o: Op): Req {
    Req(o.div, o.sgn,
        if o.long then o.a else if o.sgn then Sext16(o.a) else o.a % T16,
        if !o.div then 0 else if o.long && o.wide then o.c else if o.sgn && o.b >= T31 then T32 - 1 else 0,
        if o.div || o.long then o.b else if o.sgn then Sext16(o.b) else o.b % T16)
  }

  /** Not a divide by zero, which never starts the unit. */
  predicate Runs(o: Op) { o.div ==> Pins(o).a != 0 }

  /** The result arm, from the unit's outputs. */
  function Arm(o: Op, f: Ccr, r: Regs): Out {
    var second := if o.same then None else Some(r.hi);
    if !o.long then
      if o.div then
        var over := r.ovf || if o.sgn then Signed32(r.lo) > 32767 || Signed32(r.lo) < -32768 else r.lo > 0xFFFF;
        if over then Out(o.b, None, f.(v := true, c := false))
        else Out(r.hi % T16 * T16 + r.lo % T16, None,
                 Ccr(f.x, r.lo % T16 >= T15, r.lo % T16 == 0, false, false))
      else Out(r.lo, None, Ccr(f.x, r.lo >= T31, r.lo == 0, false, false))
    else if o.div then
      if r.ovf then Out(o.b, if o.same then None else Some(o.c), f.(v := true, c := false))
      else Out(r.lo, second, Ccr(f.x, r.lo >= T31, r.lo == 0, false, false))
    else if o.wide then Out(r.lo, second, Ccr(f.x, r.hi >= T31, r.hi == 0 && r.lo == 0, false, false))
    else
      Out(r.lo, None, Ccr(f.x, r.lo >= T31, r.lo == 0,
                          if o.sgn then r.hi != if r.lo >= T31 then T32 - 1 else 0 else r.hi != 0, false))
  }

  // ---------------------------------------------------------------- the architecture's results

  function Value16(sgn: bool, x: U32): int {
    var w := x % T16;
    if sgn && w >= T15 then w - T16 else w
  }

  predicate Fits16(sgn: bool, v: int) { if sgn then -32768 <= v < 32768 else 0 <= v < T16 }

  function Source(o: Op): int { if o.long then Value32(o.sgn, o.a) else Value16(o.sgn, o.a) }

  function Target(o: Op): int {
    if o.div && o.long && o.wide then Value64(o.sgn, o.c * T32 + o.b)
    else if o.div || o.long then Value32(o.sgn, o.b)
    else Value16(o.sgn, o.b)
  }

  /** M68000 Programmer's Reference Manual, DIVS/DIVU and MULS/MULU: on overflow V is set and the operands
    are unaffected; otherwise N and Z come from the quotient or product, and V from the 32-bit product. */
  function Architecture(o: Op, f: Ccr): Out
    requires o.div ==> Source(o) != 0
  {
    if o.div then
      var q, m := Quotient(Target(o), Source(o)), Remainder(Target(o), Source(o));
      if !(if o.long then Fits32(o.sgn, q) else Fits16(o.sgn, q)) then
        Out(o.b, if o.long && !o.same then Some(o.c) else None, f.(v := true, c := false))
      else if o.long then
        Out(Enc32(q), if o.same then None else Some(Enc32(m)),
            Ccr(f.x, Enc32(q) >= T31, q == 0, false, false))
      else Out(m % T16 * T16 + q % T16, None, Ccr(f.x, q % T16 >= T15, q == 0, false, false))
    else
      var p := Source(o) * Target(o);
      if o.long && o.wide then
        Out(Enc32(p), if o.same then None else Some(p % T64 / T32),
            Ccr(f.x, p % T64 >= T63, p == 0, false, false))
      else Out(Enc32(p), None, Ccr(f.x, Enc32(p) >= T31, Enc32(p) == 0, o.long && !Fits32(o.sgn, p), false))
  }

  lemma PinsMean(o: Op)
    ensures Value32(o.sgn, Pins(o).a) == Source(o)
    ensures o.div ==> Dividend(Pins(o)) == Target(o)
    ensures !o.div ==> Value32(o.sgn, Pins(o).lo) == Target(o)
    ensures Pins(o).a == 0 <==> Source(o) == 0
  {
  }

  lemma QuotientArm(o: Op, f: Ccr, r: Regs, q: int, m: int)
    requires o.div && r.lo == Enc32(q) && r.hi == Enc32(m) && (r.ovf <==> !Fits32(o.sgn, q))
    requires Source(o) != 0 && q == Quotient(Target(o), Source(o)) && m == Remainder(Target(o), Source(o))
    ensures Arm(o, f, r) == Architecture(o, f)
  {
    hide Quotient, Remainder, Source, Target;
    assert r.lo % T16 == q % T16 && r.hi % T16 == m % T16;
    if Fits32(o.sgn, q) { assert q == Value32(o.sgn, r.lo); }
  }

  lemma ProductArm(o: Op, f: Ccr, r: Regs, p: int)
    requires !o.div && r.hi * T32 + r.lo == p % T64 && p == Source(o) * Target(o)
    ensures Arm(o, f, r) == Architecture(o, f)
  {
    hide Source, Target, Pins;
    ProductRange(o);
    HighHalf(r.hi, r.lo, o.sgn, p);
    assert p % T64 == 0 <==> p == 0;
  }

  /** The high half says whether the product fits: all zero, or the sign of the low half. */
  lemma HighHalf(hi: U32, lo: U32, sgn: bool, p: int)
    requires hi * T32 + lo == p % T64 && InRange(sgn, p)
    ensures lo == Enc32(p) && hi == p % T64 / T32 && (hi >= T31 <==> p % T64 >= T63)
    ensures !Fits32(sgn, p) <==> hi != if sgn && lo >= T31 then T32 - 1 else 0
  {
  }

  predicate InRange(sgn: bool, p: int) { if sgn then 0 - T63 < p < T63 else 0 <= p < T64 }

  lemma ProductRange(o: Op)
    requires !o.div
    ensures InRange(o.sgn, Source(o) * Target(o))
  {
    var x, y := Source(o), Target(o);
    ProductSign(x, y);
    MulGrows(Abs(x), Abs(y), if o.sgn then T31 else T32 - 1);
    MulGrows(Abs(y), if o.sgn then T31 else T32 - 1, if o.sgn then T31 else T32 - 1);
  }

  /** Given right unit outputs, the arm writes what the architecture does, whatever the micro-op. */
  lemma ArmIsRight(o: Op, f: Ccr, r: Regs)
    requires Runs(o) && Right(r, Pins(o))
    ensures Source(o) != 0 || !o.div
    ensures Arm(o, f, r) == Architecture(o, f)
  {
    PinsMean(o);
    hide Arm, Architecture, Source, Target;
    if o.div {
      QuotientArm(o, f, r, Quotient(Target(o), Source(o)), Remainder(Target(o), Source(o)));
    } else {
      ProductArm(o, f, r, Source(o) * Target(o));
    }
  }

  // ---------------------------------------------------------------- ... as numbers

  /** A register's value, in two's complement if signed. */
  function As(sgn: bool, v: nat, half: nat): int { if sgn && v >= half then v - 2 * half else v }

  function DivisorOf(o: Op): int { if o.long then As(o.sgn, o.a, 0x8000_0000) else As(o.sgn, o.a % 0x1_0000, 0x8000) }

  function DividendOf(o: Op): int {
    if o.long && o.wide then As(o.sgn, o.c * 0x1_0000_0000 + o.b, 0x8000_0000_0000_0000) else As(o.sgn, o.b, 0x8000_0000)
  }

  /** What a division with quotient `q` and remainder `m` writes: both, or where the quotient does not fit V and nothing
    else. */
  ghost predicate DivideWrites(o: Op, f: Ccr, out: Out, q: int, m: int) {
    var half := if o.long then 0x8000_0000 else 0x8000;
    if if o.sgn then 0 - half <= q < half else 0 <= q < 2 * half then
      && out.ccr == Ccr(f.x, if o.sgn then q < 0 else q >= half, q == 0, false, false)
      && (if o.long then out.w0 == q % 0x1_0000_0000 && out.u1 == if o.same then None else Some(m % 0x1_0000_0000)
          else out.w0 % 0x1_0000 == q % 0x1_0000 && out.w0 / 0x1_0000 == m % 0x1_0000 && out.u1 == None)
    else
      && out.ccr == f.(v := true, c := false) && out.w0 == o.b
      && out.u1 == if o.long && !o.same then Some(o.c) else None
  }

  /** A DIVx: quotient and remainder of the two registers' values, the quotient truncated toward zero. */
  lemma DivideMeans(o: Op, f: Ccr, r: Regs)
    requires o.div && Runs(o) && Right(r, Pins(o))
    ensures DivisorOf(o) != 0
    ensures forall q: int, m: int :: Divides(DividendOf(o), DivisorOf(o), q, m) ==> DivideWrites(o, f, Arm(o, f, r), q, m)
  {
    ArmIsRight(o, f, r);
    OperandsAre(o);
    hide Arm, Source, Target, Pins, Right, Architecture, DivideWrites, Divides, Quotient, Remainder;
    var q, m := Quotient(Target(o), Source(o)), Remainder(Target(o), Source(o));
    QuotientDivides(Target(o), Source(o));
    ArchitectureDivides(o, f);
    forall q': int, m': int | Divides(DividendOf(o), DivisorOf(o), q', m') ensures DivideWrites(o, f, Arm(o, f, r), q', m') {
      DividesOnce(DividendOf(o), DivisorOf(o), q, m, q', m');
    }
  }

  lemma OperandsAre(o: Op)
    ensures o.div ==> Source(o) == DivisorOf(o) && Target(o) == DividendOf(o)
    ensures !o.div ==> Source(o) == DivisorOf(o) && Target(o) == FactorOf(o)
  {
  }

  lemma ArchitectureDivides(o: Op, f: Ccr)
    requires o.div && Source(o) != 0
    ensures DivideWrites(o, f, Architecture(o, f), Quotient(Target(o), Source(o)), Remainder(Target(o), Source(o)))
  {
    hide Source, Target, Quotient, Remainder;
    var q, m := Quotient(Target(o), Source(o)), Remainder(Target(o), Source(o));
    if !o.long {
      Halves(m % T16, q % T16);
    }
  }

  lemma Halves(h: nat, l: nat)
    requires h < T16 && l < T16
    ensures (h * T16 + l) / T16 == h && (h * T16 + l) % T16 == l
  {
  }

  function FactorOf(o: Op): int { if o.long then As(o.sgn, o.b, 0x8000_0000) else As(o.sgn, o.b % 0x1_0000, 0x8000) }

  /** A MULx: the product, all 64 bits of it or the low 32, V saying that a longword one is cut short. */
  lemma MultiplyMeans(o: Op, f: Ccr, r: Regs)
    requires !o.div && Right(r, Pins(o))
    ensures var p, out := DivisorOf(o) * FactorOf(o), Arm(o, f, r);
            && out.w0 == p % 0x1_0000_0000
            && (if o.long && o.wide then
                  && out.u1 == (if o.same then None else Some(p / 0x1_0000_0000 % 0x1_0000_0000))
                  && out.ccr == Ccr(f.x, p % 0x1_0000_0000_0000_0000 >= 0x8000_0000_0000_0000, p == 0, false, false)
                else
                  && out.u1 == None && out.ccr.x == f.x && !out.ccr.c
                  && (out.ccr.n <==> out.w0 >= 0x8000_0000) && (out.ccr.z <==> out.w0 == 0)
                  && (out.ccr.v <==> o.long && p != As(o.sgn, out.w0, 0x8000_0000)))
  {
    ArmIsRight(o, f, r);
    OperandsAre(o);
    ProductRange(o);
    hide Arm, Source, Target, Pins, Right, DivisorOf, FactorOf;
    HighBits(o.sgn, Source(o) * Target(o));
  }

  lemma HighBits(sgn: bool, p: int)
    requires InRange(sgn, p)
    ensures p % T64 / T32 == p / T32 % T32
    ensures Fits32(sgn, p) <==> p == As(sgn, p % T32, T31)
  {
  }

  // ---------------------------------------------------------------- EX around the unit

  /** EX's inputs in one clock: is a MULx/DIVx (not by zero) in the stage, which, and can WB not take it? */
  datatype ExIn = ExIn(valid: bool, op: Op, stall: bool)

  datatype Ex = Ex(busy: bool, unit: Regs)

  predicate Waits(e: Ex, i: ExIn) { i.valid && !(e.busy && e.unit.done) }

  /** The micro-op goes to WB at the end of this clock. */
  predicate Leaves(e: Ex, i: ExIn) { i.valid && !Waits(e, i) && !i.stall }

  function NextEx(e: Ex, i: ExIn): Ex {
    var start := i.valid && !e.busy;
    Ex(if start then true else if e.unit.done then false else e.busy, Divider.Next(e.unit, MdIn(start, Pins(i.op))))
  }

  class ExStage {
    var busy: bool
    const unit: MulDivUnit

    ghost function View(): Ex
      reads this, unit
    {
      Ex(busy, unit.r)
    }

    constructor ()
      ensures fresh(unit) && !busy && Idles(View())
    {
      busy := false;
      unit := new MulDivUnit();
    }

    method Step(i: ExIn, f: Ccr) returns (wait: bool, out: Option<Out>)
      modifies this, unit
      ensures View() == NextEx(old(View()), i)
      ensures wait == Waits(old(View()), i)
      ensures out == if Leaves(old(View()), i) then Some(Arm(i.op, f, old(unit.r))) else None
    {
      hide Divider.Next, Arm, Pins;
      var start := i.valid && !busy;
      wait := i.valid && !(busy && unit.r.done);
      out := if i.valid && !wait && !i.stall then Some(Arm(i.op, f, unit.r)) else None;
      var done := unit.r.done;
      unit.Step(MdIn(start, Pins(i.op)));
      busy := start || (busy && !done);
    }
  }

  // ---------------------------------------------------------------- every run

  ghost predicate Idles(e: Ex) { !e.busy && !e.unit.running && !e.unit.done }

  /** Busy on micro-op `o`: the unit is `k` clocks into its operands, or has the right results. */
  ghost predicate Busy(e: Ex, o: Op) {
    && e.busy
    && ((exists k: nat :: k < Latency(Pins(o)) && Working(e.unit, Pins(o), k))
        || (e.unit.done && !e.unit.running && Right(e.unit, Pins(o))))
  }

  /** EX keeps its micro-op while it holds. */
  ghost predicate Holds(e: Ex, i: ExIn, j: ExIn) {
    i.valid && !Leaves(e, i) ==> j.valid && j.op == i.op
  }

  /** EX as it enters a clock with inputs `i`. */
  ghost predicate ExInv(e: Ex, i: ExIn) {
    Idles(e) || (i.valid && Busy(e, i.op))
  }

  lemma ClockKeeps(e: Ex, i: ExIn, j: ExIn)
    requires ExInv(e, i) && Holds(e, i, j)
    ensures ExInv(NextEx(e, i), j)
  {
    hide Right, Working, Pins, Divider.Next;
    var q := Pins(i.op);
    if i.valid && !e.busy {
      StartsWorking(e.unit, q);
    } else if i.valid && !e.unit.done {
      var k: nat :| k < Latency(q) && Working(e.unit, q, k);
      BusyGoesOn(e.unit, q, k);
      var n := NextEx(e, i);
      assert n.unit == Divider.Next(e.unit, MdIn(false, q)) && n.busy;
      assert Busy(n, j.op) by { if k + 1 < Latency(q) { assert Working(n.unit, q, k + 1); } }
    } else {
      assert !e.unit.running by { if e.busy { NotWorking(e, i.op); } }
      RestsWhenDone(e.unit, MdIn(false, q));
    }
  }

  lemma NotWorking(e: Ex, o: Op)
    requires Busy(e, o) && e.unit.done
    ensures !e.unit.running
  {
  }

  lemma RestsWhenDone(r: Regs, i: MdIn)
    requires !r.running && !i.start
    ensures var n := Divider.Next(r, i); !n.running && !n.done
  {
  }

  lemma StartsWorking(r: Regs, q: Req)
    ensures Working(Divider.Next(r, MdIn(true, q)), q, 0)
  {
    hide Working, Divider.Started;
    StartWorks(r, q);
  }

  lemma BusyGoesOn(r: Regs, q: Req, k: nat)
    requires k < Latency(q) && Working(r, q, k)
    ensures var r' := Divider.Next(r, MdIn(false, q));
            if k + 1 < Latency(q) then Working(r', q, k + 1) else r'.done && !r'.running && Right(r', q)
  {
    hide Right;
    if k + 1 < Latency(q) {
      RoundWorks(r, q, k);
    } else {
      LastClockFrom(r, q);
    }
  }

  ghost function ExRun(e: Ex, ins: seq<ExIn>, k: nat): Ex
    requires k <= |ins|
  {
    if k == 0 then e else NextEx(ExRun(e, ins, k - 1), ins[k - 1])
  }

  /** From reset, whatever comes into EX and however long WB stalls it: every MULx and DIVx that goes to WB takes
    the architecture's result with it. */
  lemma {:induction false} ResultsAreRight(e: Ex, ins: seq<ExIn>, k: nat, f: Ccr)
    requires Idles(e) && k < |ins|
    requires forall t :: 0 <= t < k ==> Holds(ExRun(e, ins, t), ins[t], ins[t + 1])
    requires Runs(ins[k].op) && Leaves(ExRun(e, ins, k), ins[k])
    ensures Source(ins[k].op) != 0 || !ins[k].op.div
    ensures Arm(ins[k].op, f, ExRun(e, ins, k).unit) == Architecture(ins[k].op, f)
  {
    hide Arm, Architecture, Right, Pins, NextEx, Source, Runs, ExRun;
    RunKeeps(e, ins, k);
    ArmIsRight(ins[k].op, f, ExRun(e, ins, k).unit);
  }

  lemma {:induction false} RunKeeps(e: Ex, ins: seq<ExIn>, k: nat)
    requires Idles(e) && k < |ins|
    requires forall t :: 0 <= t < k ==> Holds(ExRun(e, ins, t), ins[t], ins[t + 1])
    ensures ExInv(ExRun(e, ins, k), ins[k])
  {
    hide ExInv, NextEx, Holds, Idles;
    if k == 0 { assert ExInv(e, ins[0]) by { IdleIsInv(e, ins[0]); } } else {
      RunKeeps(e, ins, k - 1);
      ClockKeeps(ExRun(e, ins, k - 1), ins[k - 1], ins[k]);
    }
  }

  lemma IdleIsInv(e: Ex, i: ExIn)
    requires Idles(e)
    ensures ExInv(e, i)
  {
  }

  function ExHeld(e: Ex, i: ExIn, k: nat): Ex { if k == 0 then e else NextEx(ExHeld(e, i, k - 1), i) }

  /** Clocks a MULx or DIVx spends in EX: 3, or 19. */
  lemma {:induction false} ExTakes(e: Ex, o: Op, k: nat)
    requires Idles(e) && k <= Latency(Pins(o)) + 1
    ensures Leaves(ExHeld(e, ExIn(true, o, false), k), ExIn(true, o, false)) <==> k == Latency(Pins(o)) + 1
  {
    hide Working, Divider.Next, Pins, Right;
    if k > 0 {
      HeldIsIdle(e, o, k - 1);
      UnitIsRight(e.unit, Pins(o));
    }
  }

  /** One that is ready in a clock in which WB cannot take it stays and is computed again from its operands, to be ready
    as many clocks later; it leaves only where WB takes it. */
  lemma StalledStartsOver(e: Ex, o: Op, i: ExIn)
    requires Busy(e, o) && i.valid && i.op == o
    ensures Leaves(e, i) <==> e.unit.done && !i.stall
    ensures e.unit.done ==> Idles(NextEx(e, i))
  {
    hide Pins, Right, Working;
    if e.unit.done {
      NotWorking(e, o);
      RestsWhenDone(e.unit, MdIn(false, Pins(o)));
    }
  }

  lemma {:induction false} HeldIsIdle(e: Ex, o: Op, k: nat)
    requires Idles(e) && k <= Latency(Pins(o))
    ensures ExHeld(e, ExIn(true, o, false), k + 1) == Ex(true, Idle(Divider.Started(e.unit, Pins(o)), Pins(o), k))
  {
    hide Pins, Divider.Started;
    UnitIsRight(e.unit, Pins(o));
    if k > 0 { HeldIsIdle(e, o, k - 1); }
  }
}
