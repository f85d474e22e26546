/** A run in which prediction shows: a MOVEC of an unknown control register, two words at 0x1000, and a buffer entry
  that takes the second of them for the last word of a branch. */
module StrayRun {
  import opened Memory
  import opened Prefetch
  import opened ReturnStack
  import opened Prediction
  import opened PredictionProof

  const MOVEC: Half := 0x4E7B
  const UNKNOWN: Half := 0x0FFF

  function Code(a: Addr): Half { if a == 0x1000 then MOVEC else if a == 0x1002 then UNKNOWN else NOP }

  function Length(ws: seq<Half>): Option<nat> {
    if ws == [] then None else if ws[0] == MOVEC then Some(2) else Some(1)
  }

  function Illegal(a: Addr, ws: seq<Half>): bool { ws == [MOVEC, UNKNOWN] }

  function ClassOf(a: Addr, ws: seq<Half>): Class { Plain }

  function TargetOf(a: Addr, ws: seq<Half>): Addr { 0 }

  const ISA: Isa := Isa(Length, ClassOf, TargetOf, Illegal)

  /** The core with the buffer, or without it. */
  function Core(btb: bool): Ctx { Ctx(FCfg(true, btb), ISA, false) }

  const EMPTY: Ras := Ras([0, 0, 0, 0, 0, 0, 0, 0], 0, 0)

  /** One entry, for the fetch at 0x1000: a branch to `2 * tgt` ends with its second word. */
  function Buffer(v: bool, tgt: A31): seq<Entry> {
    seq(BTB_N, k requires 0 <= k < BTB_N => if k == 0 then Entry(v, 0x800, false, true, tgt) else Entry(false, 0, false, false, 0))
  }

  const INSTR: Taken := Taken(Emission(0x1000, [MOVEC, UNKNOWN]), true)

  function Fetched(w: Half, m: bool, s: bool): QWord { QWord(w, false, m, s) }

  function At(f: Fetcher, gPc: Addr, out: seq<Taken>, pc: Addr): Front {
    Front(f, [], gPc, EMPTY, Arch(0x1000, EMPTY), out, Arch(pc, EMPTY), 0, false)
  }

  function Regs(qpc: Addr, fpc: Addr, fFa: Addr, infl: bool): FRegs {
    FRegs(qpc, fpc, infl, false, fFa, 2, true, false, false, false, false, 0x1000, 0x800, 0x1004, false, true)
  }

  /** The clocks: a fetch goes out, is answered, the instruction is emitted as the next fetch goes out, and so on. */
  function Clock(gnt: bool, ack: bool, w0: Half, w1: Half): FrontIn {
    FrontIn(None, false, false, false, false, gnt, ack, w0, w1, false)
  }

  function Clocks(next: Half): seq<FrontIn> {
    [Clock(true, false, 0, 0), Clock(false, true, MOVEC, UNKNOWN), Clock(true, false, 0, 0),
     Clock(false, true, next, NOP), Clock(false, false, 0, 0)]
  }

  // ---------------------------------------------------------------- with the buffer

  function With(k: nat): Front
    requires k <= 5
  {
    var first := Regs(0x1000, 0x2000, 0x1000, true).(mV := true, inflP := true);
    var second := Regs(0x1002, 0x1006, 0x1002, true);
    var e2 := Taken(Emission(0x1002, [UNKNOWN]), false);
    if k == 0 then At(Fetcher([], Regs(0x1000, 0x1000, 0, false), Buffer(true, 0x1000)), 0x1000, [], 0x1000)
    else if k == 1 then At(Fetcher([], first, Buffer(true, 0x1000)), 0x1000, [], 0x1000)
    else if k == 2 then
      At(Fetcher([Fetched(MOVEC, false, false), Fetched(UNKNOWN, true, true)], first.(infl := false), Buffer(true, 0x1000)),
         0x1000, [], 0x1000)
    else if k == 3 then At(Fetcher([], second, Buffer(false, 0)), 0x1000, [INSTR], 0x1002)
    else if k == 4 then
      At(Fetcher([Fetched(UNKNOWN, false, false), Fetched(NOP, false, true)], second.(infl := false), Buffer(false, 0)),
         0x1002, [INSTR], 0x1002)
    else At(Fetcher([Fetched(NOP, false, true)], second.(qpc := 0x1004, infl := false), Buffer(false, 0)), 0x1002,
            [INSTR, e2], 0x1004)
  }

  ghost predicate Steps(x: Ctx, s: Front, i: FrontIn, t: Front) {
    && Served(Code, s, i) && ValidF(s.f) && ValidRas(s.ras) && ValidRas(s.arch.ras)
    && Consume(x, s, i) <= Avail(s) && t == NextFront(x, s, i)
  }

  lemma WithFirst()
    ensures Steps(Core(true), With(0), Clocks(UNKNOWN)[0], With(1))
  {
  }

  lemma WithAnswer()
    ensures Steps(Core(true), With(1), Clocks(UNKNOWN)[1], With(2))
  {
  }

  lemma WithStrays()
    ensures Steps(Core(true), With(2), Clocks(UNKNOWN)[2], With(3))
  {
  }

  lemma WithSecond()
    ensures Steps(Core(true), With(3), Clocks(UNKNOWN)[3], With(4))
  {
  }

  /** A one-word instruction, its word at the head of the queue, is emitted. */
  lemma OneWord(btb: bool, s: Front, i: FrontIn, w: Half)
    requires s.g == [] && |s.f.q| == 2 && s.f.q[0] == Fetched(w, false, false) && !s.f.q[1].m && w != MOVEC
    requires ValidRas(s.ras) && i.ext.None? && !i.stall && !i.clear
    ensures var x := Core(btb);
            && Consume(x, s, i) == 1 <= Avail(s) && Emits(x, s, i) && !MkEnd(x, s, i) && !BadMk(x, s, i) && Complete(x, s)
            && Instr(x, s) == Emission(s.f.r.qpc, [w]) && IdRedirect(x, s, i) == None && BtbWrite(x, s, i) == Keep
  {
    assert ViewOf(s)[..1] == [w];
  }

  lemma WithEmits()
    ensures Steps(Core(true), With(4), Clocks(UNKNOWN)[4], With(5))
  {
    hide ViewOf, Complete, Consume, MkEnd, BadMk, Emits, Instr, IdRedirect, BtbWrite;
    OneWord(true, With(4), Clocks(UNKNOWN)[4], UNKNOWN);
    assert With(4).f.q[1..] == With(5).f.q;
    assert [INSTR] + [With(5).out[1]] == With(5).out;
  }

  // ---------------------------------------------------------------- without it

  function Without(k: nat): Front
    requires k <= 5
  {
    var first := Regs(0x1000, 0x1004, 0x1000, true).(inflSlot := false, mEnd := 0);
    var second := Regs(0x1004, 0x1008, 0x1004, true).(inflSlot := false, mEnd := 0);
    var e1, e2 := INSTR.(mk := false), Taken(Emission(0x1004, [NOP]), false);
    var b := Buffer(false, 0);
    if k == 0 then At(Fetcher([], first.(fpc := 0x1000, infl := false), b), 0x1000, [], 0x1000)
    else if k == 1 then At(Fetcher([], first, b), 0x1000, [], 0x1000)
    else if k == 2 then
      At(Fetcher([Fetched(MOVEC, false, false), Fetched(UNKNOWN, false, true)], first.(infl := false), b), 0x1000, [], 0x1000)
    else if k == 3 then At(Fetcher([], second, b), 0x1000, [e1], 0x1004)
    else if k == 4 then
      At(Fetcher([Fetched(NOP, false, false), Fetched(NOP, false, true)], second.(infl := false), b), 0x1004, [e1], 0x1004)
    else At(Fetcher([Fetched(NOP, false, true)], second.(qpc := 0x1006, infl := false), b), 0x1004, [e1, e2], 0x1006)
  }

  lemma WithoutFirst()
    ensures Steps(Core(false), Without(0), Clocks(NOP)[0], Without(1))
  {
  }

  lemma WithoutAnswer()
    ensures Steps(Core(false), Without(1), Clocks(NOP)[1], Without(2))
  {
  }

  lemma WithoutGoesOn()
    ensures Steps(Core(false), Without(2), Clocks(NOP)[2], Without(3))
  {
  }

  lemma WithoutSecond()
    ensures Steps(Core(false), Without(3), Clocks(NOP)[3], Without(4))
  {
  }

  lemma WithoutEmits()
    ensures Steps(Core(false), Without(4), Clocks(NOP)[4], Without(5))
  {
    hide ViewOf, Complete, Consume, MkEnd, BadMk, Emits, Instr, IdRedirect, BtbWrite;
    OneWord(false, Without(4), Clocks(NOP)[4], NOP);
    assert Without(4).f.q[1..] == Without(5).f.q;
    assert Without(4).out + [Without(5).out[1]] == Without(5).out;
  }

  // ---------------------------------------------------------------- the two runs

  lemma DecoderIsValid()
    ensures ValidIsa(ISA)
  {
  }

  function WithRun(): seq<Front> { [With(0), With(1), With(2), With(3), With(4), With(5)] }

  function WithoutRun(): seq<Front> { [Without(0), Without(1), Without(2), Without(3), Without(4), Without(5)] }

  lemma FrontStep(x: Ctx, s: Front, i: FrontIn, t: Front)
    requires Steps(x, s, i, t)
    ensures Served(Code, s, i) && ValidF(s.f) && ValidRas(s.ras) && ValidRas(s.arch.ras)
    ensures Consume(x, s, i) <= Avail(s) && t == NextFront(x, s, i)
  {
    hide NextFront, Consume, Served, ValidF, ValidRas;
  }

  lemma IsRun(x: Ctx, ss: seq<Front>, es: seq<FrontIn>)
    requires ValidIsa(x.isa) && |ss| == |es| + 1 && FrontInit(ss[0])
    requires forall i :: 0 <= i < |es| ==> Steps(x, ss[i], es[i], ss[i + 1])
    ensures FrontRun(x, Code, ss, es)
  {
    hide FrontInit, ValidIsa, NextFront, Consume, Served, Steps, ValidF, ValidRas, Avail;
    forall i | 0 <= i < |es|
      ensures Served(Code, ss[i], es[i]) && ValidF(ss[i].f) && ValidRas(ss[i].ras) && ValidRas(ss[i].arch.ras)
      ensures Consume(x, ss[i], es[i]) <= Avail(ss[i]) && ss[i + 1] == NextFront(x, ss[i], es[i])
    {
      assert Steps(x, ss[i], es[i], ss[i + 1]);
      FrontStep(x, ss[i], es[i], ss[i + 1]);
    }
  }

  lemma StartsWith()
    ensures FrontInit(With(0)) && FrontInit(Without(0))
  {
  }

  lemma RunWith()
    ensures FrontRun(Core(true), Code, WithRun(), Clocks(UNKNOWN))
  {
    hide FrontInit, ValidIsa, Steps, With, Clock;
    DecoderIsValid();
    StartsWith();
    WithFirst();
    WithAnswer();
    WithStrays();
    WithSecond();
    WithEmits();
    IsRun(Core(true), WithRun(), Clocks(UNKNOWN));
  }

  lemma RunWithout()
    ensures FrontRun(Core(false), Code, WithoutRun(), Clocks(NOP))
  {
    hide FrontInit, ValidIsa, Steps, Without, Clock;
    DecoderIsValid();
    StartsWith();
    WithoutFirst();
    WithoutAnswer();
    WithoutGoesOn();
    WithoutSecond();
    WithoutEmits();
    IsRun(Core(false), WithoutRun(), Clocks(NOP));
  }

  /** From the same address and return-address stack, with the same clocks and code, the second instruction is at
    0x1002 with this buffer and at 0x1004 without. */
  lemma PredictionShows()
    ensures FrontRun(Core(true), Code, WithRun(), Clocks(UNKNOWN)) && FrontRun(Core(false), Code, WithoutRun(), Clocks(NOP))
    ensures var s, t := WithRun()[5], WithoutRun()[5];
            && s.start == t.start && |s.out| == |t.out| == 2
            && s.out[0].e == t.out[0].e == Emission(0x1000, [MOVEC, UNKNOWN]) && Strays(Core(true), s.out[0])
            && s.out[1].e.pc == 0x1002 && t.out[1].e.pc == 0x1004
  {
    RunWith();
    RunWithout();
    hide FrontRun;
  }
}
