/** What a run of instruction fetch and decode does between and after emissions: where it goes on, that calls and returns
  are matched, how often an instruction can be fetched again, and that the next one is emitted before long. */
module Progress {
  import opened Memory
  import opened Prefetch
  import opened PrefetchProof
  import opened ReturnStack
  import opened Prediction
  import opened PredictionProof

  lemma RunLength(x: Ctx, code: Addr -> Half, ss: seq<Front>, es: seq<FrontIn>)
    requires FrontRun(x, code, ss, es)
    ensures |ss| == |es| + 1 && ValidIsa(x.isa)
  {
    hide ValidIsa, FrontInit, Served, NextFront, Consume;
  }

  lemma RunClock(x: Ctx, code: Addr -> Half, ss: seq<Front>, es: seq<FrontIn>, i: nat)
    requires FrontRun(x, code, ss, es) && i < |es|
    ensures |ss| == |es| + 1 && ValidIsa(x.isa)
    ensures Served(code, ss[i], es[i]) && ValidF(ss[i].f) && ValidRas(ss[i].ras) && ValidRas(ss[i].arch.ras)
    ensures Consume(x, ss[i], es[i]) <= Avail(ss[i]) && ss[i + 1] == NextFront(x, ss[i], es[i])
  {
    hide ValidIsa, FrontInit, Served, NextFront, Consume;
  }

  // ---------------------------------------------------------------- where it goes on

  /** Where the program goes after an emission: to the branch's target, to the return address predicted, or past the
    instruction; past the first word of an illegal one that a mark ended. */
  ghost predicate Follows(x: Ctx, r: Ras, t: Taken, next: Addr) {
    var e, k := t.e, x.isa.cls(t.e.pc, t.e.ws);
    && ValidRas(r)
    && next ==
         if k == Branch || k == Bsr then x.isa.target(e.pc, e.ws)
         else if x.ras && k == Rts && r.n > 0 then r.st[if r.sp == 0 then 7 else r.sp - 1]
         else if x.isa.bad(e.pc, e.ws) && t.mk then Plus(e.pc, 2)
         else Plus(e.pc, 2 * |e.ws|)
  }

  lemma TopIs(r: Ras)
    requires ValidRas(r)
    ensures RasTop(r) == r.st[if r.sp == 0 then 7 else r.sp - 1]
  {
  }

  lemma ArchFollows(x: Ctx, a: Arch, t: Taken)
    requires ValidIsa(x.isa) && ValidRas(a.ras)
    ensures Follows(x, a.ras, t, ArchNext(x, a, t).pc)
  {
    TopIs(a.ras);
    hide RasTop, RasNext, Plus;
  }

  lemma GoesOn(x: Ctx, code: Addr -> Half, ss: seq<Front>, es: seq<FrontIn>, i: nat)
    requires FrontRun(x, code, ss, es) && i < |es| && Emits(x, ss[i], es[i])
    ensures Follows(x, ss[i].ras, Taken(Instr(x, ss[i]), MkEnd(x, ss[i], es[i])), ss[i + 1].f.r.qpc)
  {
    AlwaysFront(x, code, ss, es, i);
    HeadGathered(x, code, ss[i]);
    EmitsCode(x, code, ss, es, i);
    hide FrontInv, MkEnd, Emits, Complete, ViewOf, Instr, ArchNext, InstrAt, NextFront, Served, FrontInit, Follows, Consume, ValidIsa;
    ArchFollows(x, ss[i].arch, Taken(Instr(x, ss[i]), MkEnd(x, ss[i], es[i])));
  }

  // ---------------------------------------------------------------- calls and returns

  /** The calls and returns emitted in the first `k` clocks. */
  ghost function FlowsTo(x: Ctx, ss: seq<Front>, es: seq<FrontIn>, k: nat): seq<Flow>
    requires k <= |es| && |ss| == |es| + 1
  {
    if k == 0 then []
    else
      var t, e := FlowsTo(x, ss, es, k - 1), Instr(x, ss[k - 1]);
      if !Emits(x, ss[k - 1], es[k - 1]) then t
      else
        match x.isa.cls(e.pc, e.ws)
        case Bsr => t + [Call(Plus(e.pc, 2 * |e.ws|))]
        case Jsr => t + [Call(Plus(e.pc, 2 * |e.ws|))]
        case Rts => t + [Return]
        case Unstack => t + [Return]
        case _ => t
  }

  /** The stack holds what those calls and returns left. */
  lemma {:induction false} RasFollows(x: Ctx, code: Addr -> Half, ss: seq<Front>, es: seq<FrontIn>, k: nat)
    requires FrontRun(x, code, ss, es) && k <= |es| && ValidRas(ss[0].ras)
    ensures ss[k].ras == if x.ras then Run(ss[0].ras, FlowsTo(x, ss, es, k)) else ss[0].ras
  {
    hide Emits, NextF, IdRedirect, BtbWrite, Instr, RasPush, RasPop, ArchNext, Served, FrontInit, Consume, Complete, BadMk, MkEnd, ValidRas;
    if k > 0 {
      RasFollows(x, code, ss, es, k - 1);
      RasClock(x, ss[k - 1], es[k - 1]);
      var t := FlowsTo(x, ss, es, k - 1);
      assert forall f: Flow :: (t + [f])[..|t|] == t;
    }
  }

  lemma RasClock(x: Ctx, s: Front, i: FrontIn)
    requires ValidIsa(x.isa) && ValidF(s.f) && ValidRas(s.ras) && ValidRas(s.arch.ras) && Consume(x, s, i) <= Avail(s)
    ensures var e, r := Instr(x, s), NextFront(x, s, i).ras;
            if !Emits(x, s, i) || !x.ras then r == s.ras
            else
              match x.isa.cls(e.pc, e.ws)
              case Bsr => r == RasPush(s.ras, Plus(e.pc, 2 * |e.ws|))
              case Jsr => r == RasPush(s.ras, Plus(e.pc, 2 * |e.ws|))
              case Rts => r == RasPop(s.ras)
              case Unstack => r == RasPop(s.ras)
              case _ => r == s.ras
  {
    hide Emits, NextF, IdRedirect, BtbWrite, Instr, RasPush, RasPop, ArchNext, Consume, Complete, BadMk, MkEnd;
  }

  /** A return that is predicted goes back to after the call it matches, however many have overflowed the stack. */
  lemma ReturnsGoBack(x: Ctx, code: Addr -> Half, ss: seq<Front>, es: seq<FrontIn>, i: nat, outer: seq<Addr>)
    requires FrontRun(x, code, ss, es) && i < |es| && x.ras && Newest(ss[0].ras, outer)
    requires Emits(x, ss[i], es[i]) && x.isa.cls(Instr(x, ss[i]).pc, Instr(x, ss[i]).ws) == Rts && ss[i].ras.n > 0
    ensures var t := Ideal(outer, FlowsTo(x, ss, es, i)); t != [] && ss[i + 1].f.r.qpc == t[|t| - 1]
  {
    hide FrontRun, Run, Ideal, FlowsTo, Emits, Instr, MkEnd, Newest, RasTop, Plus, ValidRas;
    RunLength(x, code, ss, es);
    NewestValid(ss[0].ras, outer);
    RasFollows(x, code, ss, es, i);
    RasIsNewest(ss[0].ras, outer, FlowsTo(x, ss, es, i));
    GoesOn(x, code, ss, es, i);
    TopIs(ss[i].ras);
  }

  lemma NewestValid(r: Ras, i: seq<Addr>)
    requires Newest(r, i)
    ensures ValidRas(r)
  {
  }

  // ---------------------------------------------------------------- instructions fetched again

  /** How many instructions are dropped and fetched again in the clocks from `i` up to `j`. */
  ghost function Restarts(x: Ctx, ss: seq<Front>, es: seq<FrontIn>, i: nat, j: nat): nat
    requires i <= j <= |es| && |ss| == |es| + 1
    decreases j
  {
    if i == j then 0 else Restarts(x, ss, es, i, j - 1) + if BadMk(x, ss[j - 1], es[j - 1]) then 1 else 0
  }

  /** Nothing is emitted, and no later stage redirects, in those clocks. */
  ghost predicate Waiting(x: Ctx, ss: seq<Front>, es: seq<FrontIn>, i: nat, j: nat)
    requires i <= j <= |es| && |ss| == |es| + 1
  {
    forall t :: i <= t < j ==> !Emits(x, ss[t], es[t]) && es[t].ext.None?
  }

  lemma {:induction false} TriesCount(x: Ctx, code: Addr -> Half, ss: seq<Front>, es: seq<FrontIn>, i: nat, j: nat)
    requires FrontRun(x, code, ss, es) && i <= j <= |es| && Waiting(x, ss, es, i, j)
    ensures ss[j].tries == ss[i].tries + Restarts(x, ss, es, i, j)
    decreases j
  {
    hide Emits, NextF, IdRedirect, BtbWrite, Instr, ArchNext, RasNext, Served, FrontInit, Consume, Complete, BadMk, MkEnd, ValidIsa;
    if i < j {
      TriesCount(x, code, ss, es, i, j - 1);
      assert !Emits(x, ss[j - 1], es[j - 1]) && es[j - 1].ext.None?;
    }
  }

  /** In any stretch of any run in which nothing is emitted, at most as many as the buffer has entries. */
  lemma RestartsBounded(x: Ctx, code: Addr -> Half, ss: seq<Front>, es: seq<FrontIn>, i: nat, j: nat)
    requires FrontRun(x, code, ss, es) && i <= j <= |es| && Waiting(x, ss, es, i, j)
    ensures Restarts(x, ss, es, i, j) <= 16
  {
    assert j < |ss|;
    hide FrontRun, Waiting, Restarts;
    TriesCount(x, code, ss, es, i, j);
    NoLivelock(x, code, ss, es, j);
  }

  // ---------------------------------------------------------------- the next emission

  /** Nothing is in the way: EA-calc takes what is decoded, and memory grants and answers. */
  predicate Free(i: FrontIn) { i.ext.None? && !i.stall && !i.fetchHold && i.gnt && i.ack }

  predicate Fetches(r: FRegs) { r.running && !r.hold && !r.pstop }

  /** Eleven words are enough to tell an instruction's length, as it has no more. */
  ghost predicate Decides(isa: Isa) { forall ws: seq<Half> :: |ws| >= 11 ==> isa.len(ws).Some? }

  /** How far the instruction is from whole: the words it can still need, and whether the next is offered, coming, or
    still to be fetched. */
  function Lacks(s: Front): int {
    4 * (11 - |s.g|) + if s.f.q != [] then 0 else if Live(s.f.r) then 1 else 2
  }

  lemma NotWhole(x: Ctx, code: Addr -> Half, s: Front)
    requires FrontInv(x, code, s) && Decides(x.isa) && ValidIsa(x.isa)
    ensures |s.g| <= 10 && (s.f.q == [] ==> !Complete(x, s))
  {
    hide Stream, OnPath, Fold, Plus;
    if s.f.q == [] { assert ViewOf(s) == s.g; }
  }

  /** Without words the fetch path moves: an answer comes, or a fetch goes out. */
  lemma EmptyMoves(c: FCfg, s: Fetcher, i: FIn)
    requires ValidF(s) && s.q == [] && i.consume == 0 && i.redirect.None? && !i.fetchHold && i.gnt && i.ack && !i.err
    requires Fetches(s.r) && (s.r.infl ==> s.r.inflN <= 2)
    ensures var t := NextF(c, s, i);
            Fetches(t.r) && (if Live(s.r) then t.q != [] else t.q != [] || Live(t.r))
  {
    SettledEmpty(c, s, i);
    hide Plus, Want, NextBtb, Predict, Settle;
  }

  lemma SettledEmpty(c: FCfg, s: Fetcher, i: FIn)
    requires s.q == [] && i.consume == 0 && i.redirect.None? && i.ack && !i.err
    ensures var t := Settle(c, s, i);
            && t.r.running == s.r.running && t.r.pstop == s.r.pstop && !t.r.infl
            && (if Live(s.r) then t.q != [] else t.q == [])
  {
    PopFrame(c, s, 0);
    assert Pop(c, s, 0).q == [];
    hide Plus, Pop, Arrivals;
    assert Arrivals(s.r, i) != [] by { SomeArrive(s.r, i); }
    assert Arrivals(Pop(c, s, 0).r, i) != [] by { SomeArrive(Pop(c, s, 0).r, i); }
  }

  lemma SomeArrive(r: FRegs, i: FIn)
    ensures Arrivals(r, i) != []
  {
  }

  lemma StaysOn(c: FCfg, s: Fetcher, i: FIn)
    requires ValidF(s) && i.consume <= 2 && i.consume <= |s.q| && !i.err && !i.redirectHold
    ensures var t := NextF(c, s, i); i.redirect.Some? || Fetches(s.r) ==> Fetches(t.r)
  {
    SettledOn(c, s, i);
    hide Plus, Want, NextBtb, Predict, Issues, Settle;
  }

  lemma SettledOn(c: FCfg, s: Fetcher, i: FIn)
    requires i.consume <= 2 && i.consume <= |s.q| && !i.err
    ensures var r := Settle(c, s, i).r;
            if i.redirect.Some? then r.running && !r.pstop else r.running == s.r.running && r.pstop == s.r.pstop
  {
    PopFrame(c, s, i.consume);
    hide Plus, Arrivals, Pop;
  }

  /** A free clock that neither emits nor restarts brings the instruction nearer to whole. */
  lemma ClockGathers(x: Ctx, code: Addr -> Half, s: Front, i: FrontIn)
    requires ValidIsa(x.isa) && Decides(x.isa) && FrontInv(x, code, s) && Consume(x, s, i) <= Avail(s)
    requires Free(i) && Fetches(s.f.r) && !Emits(x, s, i) && !BadMk(x, s, i)
    ensures var t := NextFront(x, s, i); Fetches(t.f.r) && Lacks(t) < Lacks(s)
  {
    NotWhole(x, code, s);
    InFlight(x, code, s);
    assert !Complete(x, s);
    hide FrontInv, Complete, BtbWrite, NextF, Instr, BadMk, MkEnd, ArchNext, RasNext, Decides, ValidIsa;
    HeadGathered(x, code, s);
    assert IdRedirect(x, s, i) == None;
    StaysOn(x.c, s.f, FetchIn(x, s, i));
    if s.f.q == [] { EmptyMoves(x.c, s.f, FetchIn(x, s, i)); }
  }

  lemma InFlight(x: Ctx, code: Addr -> Half, s: Front)
    requires FrontInv(x, code, s)
    ensures s.f.r.infl ==> s.f.r.inflN <= 2
  {
    hide Gathering, OnPath, Fold;
  }

  /** A restart begins the instruction again, with the fetch path going. */
  lemma ClockRestarts(x: Ctx, code: Addr -> Half, s: Front, i: FrontIn)
    requires FrontInv(x, code, s) && Consume(x, s, i) <= Avail(s) && Free(i) && BadMk(x, s, i)
    ensures var t := NextFront(x, s, i); Fetches(t.f.r) && Lacks(t) <= 46 && t.tries == s.tries + 1
  {
    hide FrontInv, Complete, BtbWrite, NextF, Instr, ArchNext, RasNext, Consume, MkIn, MkEnd;
    HeadGathered(x, code, s);
    StaysOn(x.c, s.f, FetchIn(x, s, i));
  }

  /** Restarts left, each worth a whole instruction, and what the one under way lacks. */
  function Distance(s: Front): int { 47 * (BTB_N - s.tries) + Lacks(s) }

  lemma {:induction false} DistanceFalls(x: Ctx, code: Addr -> Half, ss: seq<Front>, es: seq<FrontIn>, i: nat, j: nat)
    requires FrontRun(x, code, ss, es) && Decides(x.isa) && i <= j <= |es| && Waiting(x, ss, es, i, j)
    requires Fetches(ss[i].f.r) && forall t :: i <= t < j ==> Free(es[t])
    ensures Fetches(ss[j].f.r) && Distance(ss[j]) <= Distance(ss[i]) - (j - i)
    decreases j
  {
    hide FrontRun, FrontInv, Emits, BadMk, Consume, Fetches, Lacks, Decides, ValidIsa, Paid, ValidF, ValidRas, Served, NextFront, Avail, Free;
    if i < j {
      DistanceFalls(x, code, ss, es, i, j - 1);
      RunClock(x, code, ss, es, j - 1);
      AlwaysFront(x, code, ss, es, j - 1);
      FreeClock(es[j - 1]);
      if BadMk(x, ss[j - 1], es[j - 1]) {
        LacksSome(x, code, ss[j - 1]);
        ClockRestarts(x, code, ss[j - 1], es[j - 1]);
      } else {
        ClockGathers(x, code, ss[j - 1], es[j - 1]);
        SameTries(x, ss[j - 1], es[j - 1]);
      }
    }
  }

  lemma SameTries(x: Ctx, s: Front, i: FrontIn)
    requires ValidF(s.f) && ValidRas(s.ras) && ValidRas(s.arch.ras) && Consume(x, s, i) <= Avail(s)
    requires i.ext.None? && !Emits(x, s, i) && !BadMk(x, s, i)
    ensures NextFront(x, s, i).tries == s.tries
  {
    hide NextF, Instr, ArchNext, RasNext, Consume, MkEnd, Complete, BadMk, Emits;
  }

  lemma FreeClock(i: FrontIn)
    requires Free(i)
    ensures i.ext.None?
  {
  }

  lemma LacksSome(x: Ctx, code: Addr -> Half, s: Front)
    requires FrontInv(x, code, s) && Decides(x.isa) && ValidIsa(x.isa)
    ensures 4 <= Lacks(s) <= 46
  {
    NotWhole(x, code, s);
    hide FrontInv, Complete;
  }

  lemma DistanceBounds(x: Ctx, code: Addr -> Half, s: Front)
    requires FrontInv(x, code, s) && Paid(s) && Decides(x.isa) && ValidIsa(x.isa)
    ensures 4 <= Distance(s) <= 798
  {
    LacksSome(x, code, s);
    hide FrontInv, Count, Lacks;
  }

  /** From any state of any run with the fetch path going, whatever the buffer holds: if for 799 clocks EA-calc takes what
    is decoded and memory answers, an instruction is emitted. */
  lemma EmitsSoon(x: Ctx, code: Addr -> Half, ss: seq<Front>, es: seq<FrontIn>, i: nat)
    requires FrontRun(x, code, ss, es) && Decides(x.isa) && i + 799 <= |es|
    requires Fetches(ss[i].f.r) && forall t :: i <= t < i + 799 ==> Free(es[t])
    ensures exists t :: i <= t < i + 799 && Emits(x, ss[t], es[t])
  {
    hide FrontRun, FrontInv, Paid, Emits, Free, Fetches, Decides, Distance, ValidIsa;
    RunLength(x, code, ss, es);
    if forall t :: i <= t < i + 799 ==> !Emits(x, ss[t], es[t]) {
      AllWaiting(x, ss, es, i, i + 799);
      DistanceFalls(x, code, ss, es, i, i + 799);
      AlwaysFront(x, code, ss, es, i);
      AlwaysFront(x, code, ss, es, i + 799);
      DistanceBounds(x, code, ss[i]);
      DistanceBounds(x, code, ss[i + 799]);
      assert false;
    }
  }

  lemma AllWaiting(x: Ctx, ss: seq<Front>, es: seq<FrontIn>, i: nat, j: nat)
    requires i <= j <= |es| && |ss| == |es| + 1
    requires forall t :: i <= t < j ==> !Emits(x, ss[t], es[t])
    requires forall t :: i <= t < j ==> Free(es[t])
    ensures Waiting(x, ss, es, i, j)
  {
    hide Emits;
  }
}
