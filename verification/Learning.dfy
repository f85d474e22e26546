/** What the branch target buffer learns: a taken branch is entered for the fetch that brings its last word, is found there
  the next time, and is then confirmed, so that its target's words follow without a redirect. */
module Learning {
  import opened Memory
  import opened Prefetch
  import opened PrefetchProof
  import opened ReturnStack
  import opened Prediction
  import opened PredictionProof

  // ---------------------------------------------------------------- second words of a fetch

  /** A word flagged as the second of its fetch lies where a fetch of two words can have its second. */
  ghost predicate Slotted(c: FCfg, s: Fetcher, k: nat) {
    && (forall i :: 0 <= i < |s.q| && s.q[i].s ==> c.longAny || StreamAddr(s.r, k, i) / 2 % 2 == 1)
    && (Live(s.r) && s.r.inflN == 2 ==> c.longAny || s.r.fFa / 2 % 2 == 0)
  }

  ghost predicate SlotsRight(c: FCfg, code: Addr -> Half, s: Fetcher) {
    exists k :: StreamK(code, s, k) && Slotted(c, s, k)
  }

  lemma PopSlots(c: FCfg, s: Fetcher, k: nat, n: nat)
    requires MarkedAt(s.q, k) && (c.btb || k == NO) && n <= 2 && n <= |s.q| <= QN && Slotted(c, s, k)
    ensures Slotted(c, Pop(c, s, n), PoppedMark(k, n))
  {
    var t := Pop(c, s, n);
    PopRegs(c, s, k, n);
    hide Pop, StreamAddr, Plus, MarkedAt;
    forall i | 0 <= i < |t.q| && t.q[i].s ensures c.longAny || StreamAddr(t.r, PoppedMark(k, n), i) / 2 % 2 == 1 {
      assert t.q[i] == s.q[i + n];
      PopAddr(c, s, k, n, i);
    }
  }

  lemma OddWord(a: Addr)
    requires a / 2 % 2 == 0
    ensures Plus(a, 2) / 2 % 2 == 1
  {
  }

  lemma ReceiveSlots(c: FCfg, code: Addr -> Half, s: Fetcher, k: nat, i: FIn)
    requires StreamK(code, s, k) && Slotted(c, s, k)
    ensures Slotted(c, Receive(s, i), ReceivedMark(s, k, i))
  {
    if Live(s.r) && i.ack {
      var t, n, k' := Receive(s, i), |s.q|, ReceivedMark(s, k, i);
      NextAddr(s.r, k, n);
      if s.r.inflN == 2 && !c.longAny { OddWord(s.r.fFa); }
      PlusPlus(s.r.qpc, 2 * n, 2);
      hide Plus;
      forall j | 0 <= j < |t.q| && t.q[j].s ensures c.longAny || StreamAddr(t.r, k', j) / 2 % 2 == 1 {
        if j < n { assert t.q[j] == s.q[j]; }
      }
    }
  }

  lemma LaunchSlots(c: FCfg, code: Addr -> Half, s: Fetcher, k: nat, p: Option<Entry>)
    requires StreamK(code, s, k) && Slotted(c, s, k) && (p.Some? ==> !s.r.mV) && |s.q| <= QN
    ensures Slotted(c, Launch(c, s, p), k)
  {
    var t := Launch(c, s, p);
    hide Plus;
    assert forall i :: 0 <= i < |s.q| ==> StreamAddr(t.r, k, i) == StreamAddr(s.r, k, i);
  }

  lemma SettleSlots(c: FCfg, code: Addr -> Half, s: Fetcher, k: nat, i: FIn) returns (k': nat)
    requires StreamK(code, s, k) && Honest(code, s, i) && (c.btb || !s.r.mV) && Slotted(c, s, k)
    ensures StreamK(code, Settle(c, s, i), k') && Slotted(c, Settle(c, s, i), k')
  {
    if i.redirect.Some? {
      k' := NO;
      RestartKeeps(code, s, k, i.redirect.value, i);
    } else {
      var p := Pop(c, s, i.consume);
      PopKeeps(c, code, s, k, i.consume);
      PopFrame(c, s, i.consume);
      PopSlots(c, s, k, i.consume);
      hide StreamK, Pop, Receive, Plus, StreamAddr, Slotted;
      ReceiveKeeps(code, p, PoppedMark(k, i.consume), i);
      ReceiveSlots(c, code, p, PoppedMark(k, i.consume), i);
      k' := ReceivedMark(p, PoppedMark(k, i.consume), i);
    }
  }

  lemma StepSlots(c: FCfg, code: Addr -> Half, s: Fetcher, i: FIn)
    requires ValidF(s) && SlotsRight(c, code, s) && Honest(code, s, i) && (c.btb || !s.r.mV)
    ensures SlotsRight(c, code, NextF(c, s, i))
  {
    var k :| StreamK(code, s, k) && Slotted(c, s, k);
    assert s.r.infl ==> 1 <= s.r.inflN <= 2;
    hide StreamK, Settle, Launch, NextBtb, Issues, Predict, Slotted;
    var k' := SettleSlots(c, code, s, k, i);
    var t := Settle(c, s, i);
    var u := if Issues(c, s, i) then Launch(c, t, Predict(c, s, i)) else t;
    if Issues(c, s, i) {
      RoomLeft(c, s, i);
      LaunchKeeps(c, code, t, k', Predict(c, s, i));
      LaunchSlots(c, code, t, k', Predict(c, s, i));
    }
    LastTouches(c, code, s, i, u, k');
    SlotsTouched(c, s, i, u, k');
  }

  lemma SlotsTouched(c: FCfg, s: Fetcher, i: FIn, u: Fetcher, k: nat)
    requires Slotted(c, u, k)
    ensures Slotted(c, u.(btb := NextBtb(c, s, i), r := u.r.(hold := i.redirect.Some? && i.redirectHold)), k)
  {
    hide Plus, NextBtb;
  }

  lemma {:induction false} AlwaysSlotted(x: Ctx, code: Addr -> Half, ss: seq<Front>, es: seq<FrontIn>, i: nat)
    requires FrontRun(x, code, ss, es) && i < |ss|
    ensures SlotsRight(x.c, code, ss[i].f)
  {
    hide FrontInv, ValidIsa, Served, SlotsRight, NextF, IdRedirect, BtbWrite, Consume, Instr, ArchNext, RasNext, Complete, ViewOf, Emits,
      BadMk, MkEnd;
    if i == 0 {
      InitSlots(x, code, ss[0]);
    } else {
      AlwaysSlotted(x, code, ss, es, i - 1);
      AlwaysFront(x, code, ss, es, i - 1);
      FetchServed(x, code, ss[i - 1], es[i - 1]);
      StepSlots(x.c, code, ss[i - 1].f, FetchIn(x, ss[i - 1], es[i - 1]));
    }
  }

  lemma InitSlots(x: Ctx, code: Addr -> Half, s: Front)
    requires FrontInit(s)
    ensures SlotsRight(x.c, code, s.f)
  {
    PlusZero(s.f.r.qpc);
    assert StreamK(code, s.f, NO);
  }

  lemma FetchServed(x: Ctx, code: Addr -> Half, s: Front, i: FrontIn)
    requires FrontInv(x, code, s) && Served(code, s, i) && Consume(x, s, i) <= Avail(s)
    ensures Honest(code, s.f, FetchIn(x, s, i)) && (x.c.btb || !s.f.r.mV) && ValidF(s.f)
  {
    hide Stream, Gathering, OnPath, Fold, IdRedirect, BtbWrite, Consume;
  }

  // ---------------------------------------------------------------- learning

  /** The fetch that brings the last word of an instruction that ends at `end`. */
  function FetchOf(end: Addr, slot: bool): Addr { (end - (if slot then 4 else 2)) % M32 }

  lemma KeyIs(end: Addr, slot: bool)
    ensures (end / 2 + 0x7FFF_FFFF + (if slot then 0x7FFF_FFFF else 0)) % 0x8000_0000 == FetchOf(end, slot) / 2
    ensures Plus(FetchOf(end, slot), if slot then 4 else 2) == end
  {
  }

  /** The entry of a branch to `target` that ends at `end` is in the buffer. */
  ghost predicate Learned(c: FCfg, b: seq<Entry>, fs: bool, end: Addr, slot: bool, target: Addr)
    requires |b| == BTB_N
  {
    var fa := FetchOf(end, slot);
    (slot ==> Want(c, fa) == 2) && b[Ix(fa / 2)] == Entry(true, fa / 2, fs, slot, target / 2)
  }

  /** A taken branch that no mark ended: its entry is for the fetch that brings its last word, with its target. */
  lemma LearnsBranch(x: Ctx, code: Addr -> Half, ss: seq<Front>, es: seq<FrontIn>, i: nat)
    requires FrontRun(x, code, ss, es) && i < |es| && x.c.btb && !es[i].clear
    requires Emits(x, ss[i], es[i]) && !MkEnd(x, ss[i], es[i]) && IsBr(x.isa.cls(Instr(x, ss[i]).pc, Instr(x, ss[i]).ws))
    ensures var e, n := Instr(x, ss[i]), Consume(x, ss[i], es[i]);
            && |ss[i + 1].f.btb| == BTB_N && 1 <= n <= |ss[i].f.q|
            && Learned(x.c, ss[i + 1].f.btb, ss[i].f.r.fs, Plus(e.pc, 2 * |e.ws|), ss[i].f.q[n - 1].s, x.isa.target(e.pc, e.ws))
  {
    AlwaysFront(x, code, ss, es, i);
    AlwaysSlotted(x, code, ss, es, i);
    hide FrontInv, SlotsRight, Emits, MkEnd, Consume, Instr, NextFront, Complete, Paid, Learned, Served;
    TakesSome(x, code, ss[i], es[i]);
    LearnsNow(x, code, ss[i], es[i]);
  }

  lemma LearnsNow(x: Ctx, code: Addr -> Half, s: Front, i: FrontIn)
    requires ValidIsa(x.isa) && FrontInv(x, code, s) && SlotsRight(x.c, code, s.f) && ValidRas(s.arch.ras)
    requires x.c.btb && !i.clear && Emits(x, s, i) && !MkEnd(x, s, i) && |Instr(x, s).ws| == |s.g| + Consume(x, s, i)
    requires var e := Instr(x, s); IsBr(x.isa.cls(e.pc, e.ws)) && 1 <= Consume(x, s, i) <= Avail(s)
    ensures var e, n := Instr(x, s), Consume(x, s, i);
            var f' := NextFront(x, s, i).f;
            && |f'.btb| == BTB_N && n <= |s.f.q|
            && Learned(x.c, f'.btb, s.f.r.fs, Plus(e.pc, 2 * |e.ws|), s.f.q[n - 1].s, x.isa.target(e.pc, e.ws))
  {
    var e, n := Instr(x, s), Consume(x, s, i);
    hide FrontInv, SlotsRight, Emits, MkEnd, Consume, Instr, BtbWrite, Complete, IdRedirect, RasNext, ArchNext, Settle, BadMk,
      Issues, Predict, Launch, ValidIsa, FetchOf, Want, Plus, ViewOf;
    LearnWrites(x, s, i);
    LastWordAt(x, code, s, i);
    HeadGathered(x, code, s);
    KeyIs(Plus(e.pc, 2 * |e.ws|), s.f.q[n - 1].s);
  }

  lemma TakesSome(x: Ctx, code: Addr -> Half, s: Front, i: FrontIn)
    requires ValidIsa(x.isa) && FrontInv(x, code, s) && Emits(x, s, i)
    ensures 1 <= Consume(x, s, i) <= Avail(s) && |Instr(x, s).ws| == |s.g| + Consume(x, s, i)
  {
    EmitsRight(x, code, s, i);
    NeedsMore(x, s);
    hide Stream, OnPath, Fold, ViewOf;
  }

  lemma LearnWrites(x: Ctx, s: Front, i: FrontIn)
    requires ValidIsa(x.isa) && x.c.btb && !i.clear && Emits(x, s, i) && !MkEnd(x, s, i)
    requires var e := Instr(x, s); IsBr(x.isa.cls(e.pc, e.ws))
    requires 1 <= Consume(x, s, i) <= Avail(s)
    ensures var e, slot := Instr(x, s), s.f.q[Consume(x, s, i) - 1].s;
            var end := Plus(e.pc, 2 * |e.ws|);
            BtbWrite(x, s, i) == Write(true, (end / 2 + 0x7FFF_FFFF + (if slot then 0x7FFF_FFFF else 0)) % 0x8000_0000, slot,
                                       x.isa.target(e.pc, e.ws) / 2)
  {
  }

  /** An instruction that is emitted without a mark ends where the words taken from the queue do. */
  lemma EndAt(x: Ctx, code: Addr -> Half, s: Front, i: FrontIn)
    requires FrontInv(x, code, s) && |Instr(x, s).ws| == |s.g| + Consume(x, s, i)
    ensures Plus(Instr(x, s).pc, 2 * |Instr(x, s).ws|) == Plus(s.f.r.qpc, 2 * Consume(x, s, i))
  {
    HeadGathered(x, code, s);
    hide FrontInv, Plus, Consume, Complete;
    if s.g != [] { PlusPlus(s.gPc, 2 * |s.g|, 2 * Consume(x, s, i)); }
  }

  lemma SlotAddr(c: FCfg, code: Addr -> Half, s: Fetcher, n: nat)
    requires SlotsRight(c, code, s) && 1 <= n <= 2 && n <= |s.q| && s.q[n - 1].s && forall j :: 0 <= j < n ==> !s.q[j].m
    ensures c.longAny || Plus(s.r.qpc, 2 * (n - 1)) / 2 % 2 == 1
  {
    hide Plus;
    var k :| StreamK(code, s, k) && Slotted(c, s, k);
    assert StreamAddr(s.r, k, n - 1) == Plus(s.r.qpc, 2 * (n - 1));
  }

  lemma EvenWord(a: Addr, n: nat)
    requires 1 <= n <= 2 && Plus(a, 2 * (n - 1)) / 2 % 2 == 1
    ensures FetchOf(Plus(a, 2 * n), true) / 2 % 2 == 0
  {
  }

  lemma LastWordAt(x: Ctx, code: Addr -> Half, s: Front, i: FrontIn)
    requires FrontInv(x, code, s) && SlotsRight(x.c, code, s.f) && Emits(x, s, i) && !MkEnd(x, s, i) && x.c.btb
    requires 1 <= Consume(x, s, i) <= Avail(s) && |Instr(x, s).ws| == |s.g| + Consume(x, s, i)
    ensures s.f.q[Consume(x, s, i) - 1].s ==>
              Want(x.c, FetchOf(Plus(Instr(x, s).pc, 2 * |Instr(x, s).ws|), true)) == 2
  {
    var n := Consume(x, s, i);
    if s.f.q[n - 1].s {
      EndAt(x, code, s, i);
      assert forall j :: 0 <= j < n ==> !s.f.q[j].m by { Unmarked(x, s, i); }
      hide FrontInv, SlotsRight, Consume, Instr, Emits, MkEnd, FetchOf, Plus;
      SlotAddr(x.c, code, s.f, n);
      if !x.c.longAny { EvenWord(s.f.r.qpc, n); }
    }
  }

  lemma Unmarked(x: Ctx, s: Front, i: FrontIn)
    requires Emits(x, s, i) && !MkEnd(x, s, i) && x.c.btb && Consume(x, s, i) <= Avail(s)
    ensures forall j :: 0 <= j < Consume(x, s, i) ==> !s.f.q[j].m
  {
    hide Consume, Complete;
  }

  /** Fetched again, it is predicted: the target's fetch follows, and the mark is to come on the branch's last word. */
  lemma FoundAgain(c: FCfg, s: Fetcher, i: FIn, end: Addr, slot: bool, target: Addr)
    requires ValidF(s) && c.btb && Learned(c, s.btb, s.r.fs, end, slot, target) && i.consume <= 2 && i.consume <= |s.q|
    requires i.redirect.None? && !s.r.mV && s.r.fpc == FetchOf(end, slot) && Issues(c, s, i)
    ensures var r := NextF(c, s, i).r;
            && r.mV && r.mTg == target / 2 && r.mEnd == end && r.fpc == target / 2 * 2
            && Live(r) && r.inflP && r.inflSlot == slot && r.fFa == FetchOf(end, slot)
  {
    KeyIs(end, slot);
    hide FetchOf, Plus, Settle, NextBtb;
    SettledMark(c, s, i);
  }

  /** Only a valid entry of the fetch's own address and S bit predicts. */
  lemma PredictsItsOwn(c: FCfg, s: Fetcher, i: FIn)
    requires ValidF(s)
    ensures Predict(c, s, i).Some? ==>
              var e := Predict(c, s, i).value; e in s.btb && e.v && 2 * e.key == s.r.fpc / 2 * 2 && e.s == s.r.fs && c.btb
  {
  }

  /** The S bit is the last redirect's. */
  lemma StreamS(c: FCfg, s: Fetcher, i: FIn)
    requires ValidF(s) && i.consume <= 2 && i.consume <= |s.q|
    ensures NextF(c, s, i).r.fs == if i.redirect.Some? then i.redirect.value.s else s.r.fs
  {
    hide Plus, NextBtb, Issues, Want, Settle, Predict, Ix, Dbl;
    SettledFields(c, s, i);
    LaunchS(c, Settle(c, s, i), Predict(c, s, i));
    hide Launch;
  }

  /** A redirect of ID's own keeps to the S bit of the mode it runs in; a later stage's brings its own. */
  lemma FrontS(x: Ctx, s: Front, i: FrontIn)
    requires ValidF(s.f) && ValidRas(s.ras) && ValidRas(s.arch.ras) && Consume(x, s, i) <= Avail(s)
    ensures NextFront(x, s, i).f.r.fs ==
              if i.ext.Some? then i.ext.value.s else if IdRedirect(x, s, i).Some? then i.s else s.f.r.fs
  {
    hide NextF, IdRedirect, BtbWrite, Consume, Instr, RasNext, ArchNext, Emits, BadMk, MkEnd, Complete, ViewOf;
    StreamS(x.c, s.f, FetchIn(x, s, i));
  }

  lemma LaunchS(c: FCfg, s: Fetcher, p: Option<Entry>)
    ensures Launch(c, s, p).r.fs == s.r.fs
  {
    hide Plus, Want;
  }

  /** The prediction stands until its marked word is taken or a redirect comes. */
  lemma PredictionStays(c: FCfg, s: Fetcher, i: FIn)
    requires ValidF(s) && i.consume <= 2 && i.consume <= |s.q| && s.r.mV && NextF(c, s, i).r.mV
    ensures var r := NextF(c, s, i).r; r.mTg == s.r.mTg && r.mEnd == s.r.mEnd && r.mF == s.r.mF
  {
    hide Plus, NextBtb, Issues, Want, Settle;
    SettledMark(c, s, i);
    SettledFields(c, s, i);
  }

  lemma SettledFields(c: FCfg, s: Fetcher, i: FIn)
    requires i.consume <= 2 && i.consume <= |s.q|
    ensures var r := Settle(c, s, i).r; r.mTg == s.r.mTg && r.mEnd == s.r.mEnd && r.mF == s.r.mF
    ensures Settle(c, s, i).r.fs == if i.redirect.Some? then i.redirect.value.s else s.r.fs
  {
    PopFrame(c, s, i.consume);
    hide Plus, Arrivals, Pop;
  }

  /** And when ID comes to a branch that ends where the prediction said, with the target it said: it is emitted, the guess
    is right, nothing is redirected, and the head is the target. */
  lemma PredictionConfirmed(x: Ctx, code: Addr -> Half, s: Front, i: FrontIn)
    requires ValidIsa(x.isa) && FrontInv(x, code, s) && x.c.btb && i.ext.None? && !i.stall && Complete(x, s) && s.f.r.mV
    requires var e := Instr(x, s);
             && IsBr(x.isa.cls(e.pc, e.ws)) && s.f.r.mTg == x.isa.target(e.pc, e.ws) / 2
             && s.f.r.mEnd == Plus(e.pc, 2 * |e.ws|)
    ensures var e := Instr(x, s);
            && Emits(x, s, i) && PredOk(x, s, i) && IdRedirect(x, s, i) == None && Consume(x, s, i) <= Avail(s)
            && NextFront(x, s, i).f.r.qpc == x.isa.target(e.pc, e.ws)
  {
    ConsumeFits(x, s, i);
    NeedsMore(x, s);
    assert |Instr(x, s).ws| == |s.g| + Consume(x, s, i) && 1 <= Consume(x, s, i);
    EndAt(x, code, s, i);
    MarkIsLast(x, code, s, Consume(x, s, i));
    hide ValidIsa, FrontInv, Consume, Complete, Plus, ViewOf;
    GuessTaken(x, code, s, i);
    HeadGathered(x, code, s);
    FrontHead(x, s, i);
  }

  lemma MarkIsLast(x: Ctx, code: Addr -> Half, s: Front, n: nat)
    requires FrontInv(x, code, s) && s.f.r.mV && 1 <= n <= Avail(s) && s.f.r.mEnd == Plus(s.f.r.qpc, 2 * n)
    ensures s.f.q[n - 1].m && forall j :: 0 <= j < n - 1 ==> !s.f.q[j].m
  {
    hide Gathering, OnPath, Fold, StreamAddr;
    var k: nat :| StreamK(code, s.f, k);
    var d: nat := if k != NO then k + 1 else |s.f.q| + if s.f.r.inflSlot then 2 else 1;
    SamePlace(s.f.r.qpc, n, d);
  }

  lemma SamePlace(a: Addr, n: nat, d: nat)
    requires n <= 100 && d <= 100 && Plus(a, 2 * n) == Plus(a, 2 * d)
    ensures n == d
  {
  }
}
