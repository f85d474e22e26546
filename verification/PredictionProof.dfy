/** Prediction does not change what is executed, and cannot restart an instruction for ever. */
module PredictionProof {
  import opened Memory
  import opened Prefetch
  import opened PrefetchProof
  import opened ReturnStack
  import opened Prediction

  /** The instruction ends past the words gathered before, within those offered. */
  lemma NeedsMore(x: Ctx, s: Front)
    requires ValidIsa(x.isa) && Complete(x, s)
    requires x.isa.len(s.g).Some? ==> |s.g| < x.isa.len(s.g).value
    ensures |s.g| < InstrLen(x, s) <= |ViewOf(s)| == |s.g| + Avail(s)
    ensures x.isa.len(ViewOf(s)[..InstrLen(x, s)]) == Some(InstrLen(x, s))
  {
    var v := ViewOf(s);
    var n := InstrLen(x, s);
    assert v == s.g + v[|s.g|..];
    LenPast(x.isa, s.g, v, n);
  }

  lemma LenPast(isa: Isa, g: seq<Half>, v: seq<Half>, n: nat)
    requires ValidIsa(isa) && |g| <= |v| && g == v[..|g|]
    requires isa.len(v) == Some(n) && n <= |v| && (isa.len(g).Some? ==> |g| < isa.len(g).value)
    ensures |g| < n
  {
    assert v == g + v[|g|..];
    var k := if n <= |g| then n else 0;
    var t, h := v[..n], g[..k];
    assert h + g[k..] == g;
    assert k == n ==> h == t;
  }

  lemma ConsumeFits(x: Ctx, s: Front, i: FrontIn)
    requires ValidIsa(x.isa)
    requires x.isa.len(s.g).Some? ==> |s.g| < x.isa.len(s.g).value
    ensures Consume(x, s, i) <= Avail(s)
  {
    if Complete(x, s) { NeedsMore(x, s); }
  }

  /** Where the head is after the clock. */
  lemma HeadMoves(c: FCfg, s: Fetcher, i: FIn)
    requires ValidF(s) && i.consume <= 2 && i.consume <= |s.q|
    ensures NextF(c, s, i).r.qpc == if i.redirect.Some? then i.redirect.value.pc else Pop(c, s, i.consume).r.qpc
  {
    hide Plus, NextBtb, Issues, Predict, Pop, Settle;
    HeadSettles(c, s, i);
  }

  lemma HeadSettles(c: FCfg, s: Fetcher, i: FIn)
    requires i.consume <= 2 && i.consume <= |s.q|
    ensures Settle(c, s, i).r.qpc == if i.redirect.Some? then i.redirect.value.pc else Pop(c, s, i.consume).r.qpc
  {
    hide Plus, Arrivals, Pop;
  }

  /** Nothing poisoned joins. */
  lemma StaysClean(c: FCfg, s: Fetcher, i: FIn)
    requires ValidF(s) && i.consume <= 2 && i.consume <= |s.q|
    requires !i.err && forall k :: 0 <= k < |s.q| ==> !s.q[k].err
    ensures forall k :: 0 <= k < |NextF(c, s, i).q| ==> !NextF(c, s, i).q[k].err
  {
    hide Plus, NextBtb, Issues, Predict;
    var p := Pop(c, s, i.consume);
    assert forall k :: 0 <= k < |p.q| ==> p.q[k] == s.q[k + i.consume];
    hide Pop;
    assert forall k :: 0 <= k < |Settle(c, s, i).q| ==> !Settle(c, s, i).q[k].err;
    hide Settle;
  }

  /** Words taken without a mark among them: the head moves on by as many. */
  lemma PlainTake(c: FCfg, s: Fetcher, n: nat)
    requires n <= 2 && n <= |s.q|
    requires n >= 1 ==> !s.q[0].m
    requires n == 2 ==> !s.q[1].m
    ensures Pop(c, s, n).r.qpc == Plus(s.r.qpc, 2 * n)
  {
  }

  /** The word offered at place `|g| + j` is the code's when no mark lies before it. */
  lemma ViewIsCode(x: Ctx, code: Addr -> Half, s: Front, j: nat)
    requires FrontInv(x, code, s) && j < |ViewOf(s)|
    requires j > |s.g| ==> !s.f.q[0].m
    ensures ViewOf(s)[j] == code(Plus(VPc(s), 2 * j))
  {
    HeadIsStream(code, s.f);
    if s.g != [] && j >= |s.g| {
      PlusPlus(s.gPc, 2 * |s.g|, 2 * (j - |s.g|));
    }
    PlusZero(s.f.r.qpc);
  }

  lemma OneMark(code: Addr -> Half, s: Fetcher)
    requires Stream(code, s)
    ensures |s.q| >= 2 ==> !(s.q[0].m && s.q[1].m)
    ensures (exists k :: 0 <= k < |s.q| && s.q[k].m) ==> s.r.mV
  {
  }

  /** What ID emits is the instruction the program is at. */
  lemma EmitsRight(x: Ctx, code: Addr -> Half, s: Front, i: FrontIn)
    requires ValidIsa(x.isa) && FrontInv(x, code, s) && Emits(x, s, i)
    ensures InstrAt(x.isa, code, s.arch.pc, Instr(x, s))
    ensures |Instr(x, s).ws| == InstrLen(x, s) == |s.g| + Consume(x, s, i) <= 11
  {
    NeedsMore(x, s);
    OneMark(code, s.f);
    var n := InstrLen(x, s);
    hide ValidIsa, Stream, OnPath, Fold;
    forall j | 0 <= j < n ensures ViewOf(s)[j] == code(Plus(VPc(s), 2 * j)) { ViewIsCode(x, code, s, j); }
  }

  /** No mark is taken by an instruction that is emitted without ending on it, nor while gathering. */
  lemma NoMarkTaken(x: Ctx, code: Addr -> Half, s: Front, i: FrontIn)
    requires FrontInv(x, code, s) && i.ext.None? && !i.stall && !BadMk(x, s, i) && !MkEnd(x, s, i)
    requires Consume(x, s, i) <= Avail(s)
    ensures Pop(x.c, s.f, Consume(x, s, i)).r.qpc == Plus(s.f.r.qpc, 2 * Consume(x, s, i))
  {
    OneMark(code, s.f);
    PlainTake(x.c, s.f, Consume(x, s, i));
  }

  /** A right guess: the head is the target. */
  lemma GuessTaken(x: Ctx, code: Addr -> Half, s: Front, i: FrontIn)
    requires ValidIsa(x.isa) && FrontInv(x, code, s) && Emits(x, s, i) && PredOk(x, s, i)
    requires Consume(x, s, i) <= Avail(s)
    ensures Pop(x.c, s.f, Consume(x, s, i)).r.qpc == x.isa.target(VPc(s), Instr(x, s).ws)
  {
    OneMark(code, s.f);
    PlusZero(Dbl(s.f.r.mTg));
    assert x.isa.target(VPc(s), Instr(x, s).ws) % 2 == 0;
  }

  lemma FrontHead(x: Ctx, s: Front, i: FrontIn)
    requires ValidF(s.f) && ValidRas(s.ras) && ValidRas(s.arch.ras) && Consume(x, s, i) <= Avail(s) && i.ext.None?
    ensures var d := IdRedirect(x, s, i);
            NextFront(x, s, i).f.r.qpc == if d.Some? then d.value else Pop(x.c, s.f, Consume(x, s, i)).r.qpc
  {
    HeadMoves(x.c, s.f, FetchIn(x, s, i));
    hide NextF, IdRedirect, BtbWrite, Consume, Pop, Instr, ArchNext, RasNext, Emits, BadMk, Complete;
  }

  lemma HeadGathered(x: Ctx, code: Addr -> Half, s: Front)
    requires FrontInv(x, code, s)
    ensures s.g != [] ==> s.f.r.qpc == Plus(s.gPc, 2 * |s.g|)
    ensures s.arch.ras == s.ras && ValidF(s.f) && ValidRas(s.ras)
  {
    hide Stream, OnPath, Fold, Plus;
  }

  /** Straight on: the head follows the instruction. */
  lemma StraightOn(x: Ctx, code: Addr -> Half, s: Front, i: FrontIn)
    requires ValidIsa(x.isa) && FrontInv(x, code, s) && Emits(x, s, i) && !MkEnd(x, s, i)
    requires Consume(x, s, i) <= Avail(s)
    ensures Pop(x.c, s.f, Consume(x, s, i)).r.qpc == Plus(VPc(s), 2 * |Instr(x, s).ws|)
  {
    hide ValidIsa, FrontInv, Stream, OnPath, Fold, Gathering, Complete, Consume, Pop, ViewOf, InstrLen, Instr, MkEnd,
      BadMk, Avail;
    HeadGathered(x, code, s);
    EmitsRight(x, code, s, i);
    NoMarkTaken(x, code, s, i);
    if s.g != [] { PlusPlus(s.gPc, 2 * |s.g|, 2 * Consume(x, s, i)); }
  }

  lemma HeadFollows(x: Ctx, code: Addr -> Half, s: Front, i: FrontIn)
    requires ValidIsa(x.isa) && FrontInv(x, code, s) && Emits(x, s, i) && Consume(x, s, i) <= Avail(s)
    ensures NextFront(x, s, i).f.r.qpc == ArchNext(x, s.arch, Taken(Instr(x, s), MkEnd(x, s, i))).pc
  {
    FrontHead(x, s, i);
    HeadGathered(x, code, s);
    hide ValidIsa, FrontInv, Stream, OnPath, Fold, Gathering, NextFront, Complete, Consume, Pop, ViewOf, InstrLen,
         MkIn, BadMk, Plus, VPc, Avail, RasNext, RasTop;
    if PredOk(x, s, i) { GuessTaken(x, code, s, i); }
    hide MkEnd;
    if !MkEnd(x, s, i) { StraightOn(x, code, s, i); }
  }

  lemma OnlyStrays(x: Ctx, a: Arch, t: Taken)
    requires ValidIsa(x.isa) && ValidRas(a.ras) && |t.e.ws| <= 11
    ensures ArchNext(x, a, t).pc == PathNext(x, a.ras, t.e) <==> !Strays(x, t)
  {
    if |t.e.ws| != 1 { FarApart(t.e.pc, |t.e.ws|); }
    hide Plus, RasNext, RasTop;
  }

  /** After an emission the head is where the program goes without prediction, guessed or not, unless the
    instruction is an illegal one of several words ended by a mark: then, and only then, it is elsewhere. */
  lemma ContinuesRight(x: Ctx, code: Addr -> Half, s: Front, i: FrontIn)
    requires ValidIsa(x.isa) && FrontInv(x, code, s) && Emits(x, s, i) && Consume(x, s, i) <= Avail(s)
    ensures var t := Taken(Instr(x, s), MkEnd(x, s, i));
            && NextFront(x, s, i).f.r.qpc == ArchNext(x, s.arch, t).pc
            && (NextFront(x, s, i).f.r.qpc == PathNext(x, s.ras, t.e) <==> !Strays(x, t))
  {
    HeadGathered(x, code, s);
    EmitsRight(x, code, s, i);
    hide ValidIsa, FrontInv, NextFront, ArchNext, PathNext, Strays, Emits, Instr, MkEnd, Consume, InstrLen, InstrAt;
    HeadFollows(x, code, s, i);
    OnlyStrays(x, s.arch, Taken(Instr(x, s), MkEnd(x, s, i)));
  }

  lemma FarApart(a: Addr, n: nat)
    requires n <= 11 && n != 1
    ensures Plus(a, 2) != Plus(a, 2 * n)
  {
  }

  // ---------------------------------------------------------------- the invariant is inductive

  lemma KeepsFetch(x: Ctx, code: Addr -> Half, s: Front, i: FrontIn)
    requires ValidIsa(x.isa) && FrontInv(x, code, s) && Served(code, s, i) && Consume(x, s, i) <= Avail(s)
    ensures var f' := NextFront(x, s, i).f;
            && ValidF(f') && Stream(code, f') && (x.c.btb || !f'.r.mV)
            && forall k :: 0 <= k < |f'.q| ==> !f'.q[k].err
  {
    hide ValidIsa, Gathering, OnPath, Fold, NextF, IdRedirect, BtbWrite, Consume, Instr, ArchNext, RasNext, Emits,
      BadMk, Complete, Stream, ViewOf;
    StepKeepsStream(x.c, code, s.f, FetchIn(x, s, i));
    StaysClean(x.c, s.f, FetchIn(x, s, i));
  }

  lemma KeepsPath(x: Ctx, code: Addr -> Half, s: Front, i: FrontIn)
    requires ValidIsa(x.isa) && FrontInv(x, code, s) && Consume(x, s, i) <= Avail(s)
    ensures var s' := NextFront(x, s, i);
            && ValidRas(s'.ras) && ValidRas(s'.start.ras) && s'.arch.ras == s'.ras
            && s'.arch == Fold(x, s'.start, s'.out) && OnPath(x, code, s'.start, s'.out)
  {
    var s' := NextFront(x, s, i);
    var e := Instr(x, s);
    if Emits(x, s, i) { EmitsRight(x, code, s, i); }
    hide ValidIsa, Gathering, NextF, IdRedirect, BtbWrite, Consume, Instr, RasNext, BadMk, MkEnd, Complete, Stream, ViewOf,
      InstrAt, PathNext;
    if Emits(x, s, i) {
      assert s'.out == s.out + [Taken(e, MkEnd(x, s, i))] && s'.out[..|s'.out| - 1] == s.out;
      forall j | 0 <= j < |s'.out| ensures InstrAt(x.isa, code, Fold(x, s'.start, s'.out[..j]).pc, s'.out[j].e) {
        if j < |s.out| { assert s'.out[..j] == s.out[..j] && s'.out[j] == s.out[j]; }
      }
    }
  }

  lemma EmptyLen(isa: Isa)
    requires ValidIsa(isa)
    ensures isa.len([]).Some? ==> isa.len([]).value >= 1
  {
  }

  /** After a redirect, or a restart, ID starts afresh where the program is. */
  lemma RestartGathers(x: Ctx, code: Addr -> Half, s: Front, i: FrontIn)
    requires ValidIsa(x.isa) && FrontInv(x, code, s) && Consume(x, s, i) <= Avail(s)
    requires i.ext.Some? || BadMk(x, s, i)
    ensures Gathering(x, code, NextFront(x, s, i))
  {
    EmptyLen(x.isa);
    HeadMoves(x.c, s.f, FetchIn(x, s, i));
    hide ValidIsa, OnPath, Fold, NextF, BtbWrite, Consume, Instr, RasNext, ArchNext, Complete, Stream, ViewOf, InstrAt;
  }

  lemma EmitGathers(x: Ctx, code: Addr -> Half, s: Front, i: FrontIn)
    requires ValidIsa(x.isa) && FrontInv(x, code, s) && Consume(x, s, i) <= Avail(s) && Emits(x, s, i)
    ensures Gathering(x, code, NextFront(x, s, i))
  {
    EmptyLen(x.isa);
    ContinuesRight(x, code, s, i);
    hide ValidIsa, OnPath, Fold, NextF, BtbWrite, Consume, RasNext, Stream, ViewOf, PathNext, Strays, MkEnd, NextPc;
  }

  lemma OfferedIsCode(x: Ctx, code: Addr -> Half, s: Front)
    requires FrontInv(x, code, s)
    requires |s.f.q| >= 2 ==> !s.f.q[0].m
    ensures forall j :: 0 <= j < |ViewOf(s)| ==> ViewOf(s)[j] == code(Plus(VPc(s), 2 * j))
  {
    hide FrontInv, Plus;
    forall j | 0 <= j < |ViewOf(s)| ensures ViewOf(s)[j] == code(Plus(VPc(s), 2 * j)) { ViewIsCode(x, code, s, j); }
  }

  lemma WaitFields(x: Ctx, s: Front, i: FrontIn)
    requires ValidF(s.f) && ValidRas(s.ras) && ValidRas(s.arch.ras) && Consume(x, s, i) <= Avail(s)
    requires i.ext.None? && !BadMk(x, s, i) && !Emits(x, s, i)
    ensures var s' := NextFront(x, s, i);
            && s'.arch == s.arch && s'.g == (if i.stall then s.g else ViewOf(s))
            && s'.gPc == (if i.stall || s.g != [] then s.gPc else s.f.r.qpc)
            && Consume(x, s, i) == (if i.stall then 0 else Avail(s))
            && (!i.stall ==> !Complete(x, s))
  {
    hide Plus, ViewOf, Instr, BadMk, NextF, IdRedirect, BtbWrite, RasNext, ArchNext;
  }

  lemma WaitGathers(x: Ctx, code: Addr -> Half, s: Front, i: FrontIn)
    requires ValidIsa(x.isa) && FrontInv(x, code, s) && Consume(x, s, i) <= Avail(s)
    requires i.ext.None? && !BadMk(x, s, i) && !Emits(x, s, i)
    ensures Gathering(x, code, NextFront(x, s, i))
  {
    hide ValidIsa, OnPath, Fold, Stream, Plus, NextFront, BadMk, Emits, Consume;
    EmptyLen(x.isa);
    NoTake(x, code, s, i);
    WaitFields(x, s, i);
    PlusZero(s.f.r.qpc);
    if !i.stall {
      hide FrontInv;
      OfferedIsCode(x, code, s);
      PlusPlus(s.gPc, 2 * |s.g|, 2 * Avail(s));
      MoreGathered(x, code, s, NextFront(x, s, i));
    }
  }

  lemma MoreGathered(x: Ctx, code: Addr -> Half, s: Front, s': Front)
    requires s'.arch == s.arch && s'.g == ViewOf(s) && s'.gPc == if s.g != [] then s.gPc else s.f.r.qpc
    requires Gathering(x, code, s) && !Complete(x, s)
    requires x.isa.len([]).Some? ==> x.isa.len([]).value >= 1
    requires s'.f.r.qpc == Plus(s.f.r.qpc, 2 * Avail(s)) && Plus(s.f.r.qpc, 0) == s.f.r.qpc
    requires Plus(Plus(s.gPc, 2 * |s.g|), 2 * Avail(s)) == Plus(s.gPc, 2 * |s.g| + 2 * Avail(s))
    requires forall j :: 0 <= j < |ViewOf(s)| ==> ViewOf(s)[j] == code(Plus(VPc(s), 2 * j))
    ensures Gathering(x, code, s')
  {
    hide Plus;
    assert |ViewOf(s)| == |s.g| + Avail(s);
  }

  /** Nothing is emitted: the head moves past the words gathered. */
  lemma NoTake(x: Ctx, code: Addr -> Half, s: Front, i: FrontIn)
    requires ValidIsa(x.isa) && FrontInv(x, code, s) && Consume(x, s, i) <= Avail(s)
    requires i.ext.None? && !BadMk(x, s, i) && !Emits(x, s, i)
    ensures NextFront(x, s, i).f.r.qpc == Plus(s.f.r.qpc, 2 * Consume(x, s, i))
    ensures !i.stall ==> !Complete(x, s)
    ensures !i.stall && |s.f.q| >= 2 ==> !s.f.q[0].m
  {
    hide ValidIsa, OnPath, Fold, BtbWrite, RasNext, PathNext, Plus, Instr, ArchNext;
    FrontHead(x, s, i);
    OneMark(code, s.f);
    if i.stall { PlainTake(x.c, s.f, 0); } else { NoMarkTaken(x, code, s, i); }
  }

  lemma KeepsFront(x: Ctx, code: Addr -> Half, s: Front, i: FrontIn)
    requires ValidIsa(x.isa) && FrontInv(x, code, s) && Served(code, s, i)
    ensures Consume(x, s, i) <= Avail(s)
    ensures FrontInv(x, code, NextFront(x, s, i))
  {
    ConsumeFits(x, s, i);
    hide ValidIsa, Gathering, OnPath, Fold, NextFront, Served, Consume, BadMk, Emits, Stream;
    KeepsFetch(x, code, s, i);
    KeepsPath(x, code, s, i);
    if i.ext.Some? || BadMk(x, s, i) { RestartGathers(x, code, s, i); }
    else if Emits(x, s, i) { EmitGathers(x, code, s, i); }
    else { WaitGathers(x, code, s, i); }
  }

  // ---------------------------------------------------------------- restarts are paid for

  lemma {:induction false} CountUpdate(b: seq<Entry>, k: nat, e: Entry)
    requires k < |b|
    ensures Count(b[k := e]) == Count(b) - (if b[k].v then 1 else 0) + (if e.v then 1 else 0)
  {
    if k == 0 {
      assert b[k := e][1..] == b[1..];
    } else {
      CountUpdate(b[1..], k - 1, e);
      assert b[k := e][1..] == b[1..][k - 1 := e];
    }
  }

  lemma {:induction false} CountBound(b: seq<Entry>)
    ensures Count(b) <= |b|
    ensures (forall k :: 0 <= k < |b| ==> !b[k].v) ==> Count(b) == 0
    ensures Count(b) == 0 ==> forall k :: 0 <= k < |b| ==> !b[k].v
  {
    if b != [] { CountBound(b[1..]); assert forall k :: 0 < k < |b| ==> b[k] == b[1..][k - 1]; }
  }

  /** A prediction outstanding after the clock was outstanding before it, or comes from a valid entry. */
  lemma SettledMark(c: FCfg, s: Fetcher, i: FIn)
    requires i.consume <= 2 && i.consume <= |s.q|
    ensures var t := Settle(c, s, i);
            && (i.redirect.Some? ==> !t.r.mV)
            && (t.r.mV ==> s.r.mV && t.r.mF == s.r.mF)
            && (i.redirect.None? && i.consume != 0 && s.q[0].m ==> !t.r.mV)
            && (i.redirect.None? ==> t.r.fpc == s.r.fpc)
  {
    hide Plus, Arrivals, Pop;
    PopFields(c, s, i.consume);
  }

  lemma PopFields(c: FCfg, s: Fetcher, n: nat)
    requires n <= 2 && n <= |s.q|
    ensures var p := Pop(c, s, n);
            && (p.r.mV ==> s.r.mV && p.r.mF == s.r.mF) && p.r.fpc == s.r.fpc
            && (n != 0 && s.q[0].m ==> !p.r.mV)
  {
    hide Plus;
  }

  lemma PredictionFrom(c: FCfg, s: Fetcher, i: FIn)
    requires ValidF(s) && i.consume <= 2 && i.consume <= |s.q|
    ensures i.redirect.Some? ==> !NextF(c, s, i).r.mV
    ensures NextF(c, s, i).r.mV && s.r.mV ==> NextF(c, s, i).r.mF == s.r.mF
    ensures NextF(c, s, i).r.mV && !s.r.mV ==> s.btb[Ix(NextF(c, s, i).r.mF)].v
    ensures i.redirect.None? && i.consume != 0 && |s.q| >= 1 && s.q[0].m ==> NextF(c, s, i).r.mV ==> !s.r.mV
    ensures NextF(c, s, i).btb == NextBtb(c, s, i)
  {
    hide Plus, NextBtb, Settle, Issues, Want;
    SettledMark(c, s, i);
  }

  /** What is written to the buffer, and when. */
  lemma WriteKinds(x: Ctx, s: Front, i: FrontIn)
    requires ValidRas(s.ras)
    ensures var op := BtbWrite(x, s, i);
            && (i.clear <==> op == Clear)
            && (op.Write? ==> FetchIn(x, s, i).redirect.Some? || PredOk(x, s, i))
            && (op.Write? && op.val ==> Emits(x, s, i))
            && (BadMk(x, s, i) && !i.clear ==> op.Write? && !op.val && op.fa == s.f.r.mF && !Emits(x, s, i))
            && (op.Write? ==> !i.clear && x.c.btb && FetchIn(x, s, i).redirect.Some?)
  {
    hide Complete, Consume, Plus, ViewOf, InstrLen, RasTop;
  }

  /** How many entries are valid after a clock. */
  lemma BtbCounts(c: FCfg, s: Fetcher, i: FIn)
    requires |s.btb| == BTB_N
    ensures var b := NextBtb(c, s, i);
            && |b| == BTB_N && (!c.btb || i.op.Keep? ==> b == s.btb)
            && (c.btb && i.op.Clear? ==> Count(b) == 0)
            && (c.btb && i.op.Write? ==>
                  && (forall k :: 0 <= k < BTB_N && k != Ix(i.op.fa) ==> b[k] == s.btb[k])
                  && b[Ix(i.op.fa)].v == i.op.val
                  && Count(b) == Count(s.btb) - (if s.btb[Ix(i.op.fa)].v then 1 else 0) + if i.op.val then 1 else 0)
    ensures Count(s.btb) <= BTB_N && Count(NextBtb(c, s, i)) <= BTB_N
    ensures (exists k :: 0 <= k < BTB_N && s.btb[k].v) ==> Count(s.btb) > 0
  {
    CountBound(s.btb);
    CountBound(NextBtb(c, s, i));
    if i.op.Write? { CountUpdate(s.btb, Ix(i.op.fa), Entry(i.op.val, i.op.fa, s.r.fs, i.op.slot, i.op.tgt)); }
  }

  lemma KeepsPaid(x: Ctx, code: Addr -> Half, s: Front, i: FrontIn)
    requires FrontInv(x, code, s) && Paid(s) && Consume(x, s, i) <= Avail(s)
    ensures Paid(NextFront(x, s, i))
  {
    hide FrontInv, Stream, IdRedirect, BtbWrite, NextF, Consume, Complete, BadMk, Emits, MkEnd, Instr, ArchNext, RasNext,
      ViewOf, NextBtb, PredOk, Count, RasTop;
    HeadGathered(x, code, s);
    if BadMk(x, s, i) { BadMkMeans(x, code, s, i); }
    if !x.c.btb { NoPrediction(x, code, s, i); }
    PredictionFrom(x.c, s.f, FetchIn(x, s, i));
    WriteKinds(x, s, i);
    BtbCounts(x.c, s.f, FetchIn(x, s, i));
  }

  lemma BadMkMeans(x: Ctx, code: Addr -> Half, s: Front, i: FrontIn)
    requires FrontInv(x, code, s) && BadMk(x, s, i)
    ensures s.f.r.mV && x.c.btb && !Emits(x, s, i) && FetchIn(x, s, i).redirect.Some?
  {
    OneMark(code, s.f);
    hide Stream, Consume, MkEnd;
  }

  lemma NoPrediction(x: Ctx, code: Addr -> Half, s: Front, i: FrontIn)
    requires FrontInv(x, code, s) && Consume(x, s, i) <= Avail(s) && !x.c.btb
    ensures !s.f.r.mV && !NextFront(x, s, i).f.r.mV
  {
    hide Stream, IdRedirect, BtbWrite, Consume, Complete, BadMk, Emits, MkEnd, Instr, ArchNext, RasNext, ViewOf, NextBtb,
      Settle, Issues, Gathering, OnPath, Fold;
    SettledMark(x.c, s.f, FetchIn(x, s, i));
  }

  // ---------------------------------------------------------------- over whole runs

  lemma InitFront(x: Ctx, code: Addr -> Half, s: Front)
    requires ValidIsa(x.isa) && FrontInit(s)
    ensures FrontInv(x, code, s) && Paid(s)
  {
    CountBound(s.f.btb);
    EmptyLen(x.isa);
    PlusZero(s.f.r.qpc);
    hide ValidIsa, Count;
    assert StreamK(code, s.f, NO);
  }

  lemma {:induction false} AlwaysFront(x: Ctx, code: Addr -> Half, ss: seq<Front>, es: seq<FrontIn>, i: nat)
    requires FrontRun(x, code, ss, es) && i < |ss|
    ensures FrontInv(x, code, ss[i]) && Paid(ss[i])
  {
    hide FrontInv, Paid, ValidIsa, Served, FrontInit, NextFront;
    if i == 0 {
      InitFront(x, code, ss[0]);
    } else {
      AlwaysFront(x, code, ss, es, i - 1);
      KeepsFront(x, code, ss[i - 1], es[i - 1]);
      KeepsPaid(x, code, ss[i - 1], es[i - 1]);
    }
  }

  /** At one address there is one instruction. */
  lemma OneInstr(x: Ctx, code: Addr -> Half, a: Addr, d: Emission, e: Emission)
    requires ValidIsa(x.isa) && InstrAt(x.isa, code, a, d) && InstrAt(x.isa, code, a, e)
    ensures d == e
  {
    var short, long := if |d.ws| <= |e.ws| then d.ws else e.ws, if |d.ws| <= |e.ws| then e.ws else d.ws;
    assert long == short + long[|short|..];
  }

  /** The first `n` instructions of two lists of emissions are the same. */
  predicate Agree(o: seq<Taken>, p: seq<Taken>, n: nat)
    requires n <= |o| && n <= |p|
  {
    forall k :: 0 <= k < n ==> o[k].e == p[k].e
  }

  /** Where one of them strays, so does the other. */
  predicate StrayAlike(x: Ctx, o: seq<Taken>, p: seq<Taken>, n: nat)
    requires n <= |o| && n <= |p|
  {
    forall k :: 0 <= k < n ==> (Strays(x, o[k]) <==> Strays(x, p[k]))
  }

  /** As long as both have the same instructions and stray alike, the program is at the same place. */
  lemma {:induction false} SameFold(x: Ctx, y: Ctx, a: Arch, o: seq<Taken>, p: seq<Taken>, n: nat)
    requires x.isa == y.isa && x.ras == y.ras && ValidRas(a.ras) && n <= |o| && n <= |p|
    requires Agree(o, p, n) && StrayAlike(x, o, p, n)
    ensures Fold(x, a, o[..n]) == Fold(y, a, p[..n])
  {
    hide RasTop, RasPush, RasPop, ValidRas;
    if n > 0 {
      assert o[..n][..n - 1] == o[..n - 1] && p[..n][..n - 1] == p[..n - 1];
      SameFold(x, y, a, o, p, n - 1);
    }
  }

  lemma SameStack(x: Ctx, y: Ctx, a: Arch, b: Arch, t: Taken, u: Taken)
    requires x.isa == y.isa && x.ras == y.ras && ValidRas(a.ras) && a == b && t.e == u.e && |t.e.ws| <= 11
    requires ValidIsa(x.isa)
    ensures ArchNext(x, a, t).pc == ArchNext(y, b, u).pc <==> (Strays(x, t) <==> Strays(x, u))
  {
    if |t.e.ws| != 1 { FarApart(t.e.pc, |t.e.ws|); }
    hide Plus, RasNext;
  }

  lemma PathAt(x: Ctx, code: Addr -> Half, a: Arch, o: seq<Taken>, n: nat)
    requires ValidIsa(x.isa) && ValidRas(a.ras) && OnPath(x, code, a, o) && n < |o|
    ensures InstrAt(x.isa, code, Fold(x, a, o[..n]).pc, o[n].e)
    ensures |o[n].e.ws| <= 11
    ensures n > 0 ==> Fold(x, a, o[..n]) == ArchNext(x, Fold(x, a, o[..n - 1]), o[n - 1])
  {
    if n > 0 { assert o[..n][..n - 1] == o[..n - 1]; }
  }

  /** A program's path is one: two lists of emissions on it agree as far as they stray alike before, and no further. */
  lemma {:induction false} OnePath(x: Ctx, y: Ctx, code: Addr -> Half, a: Arch, o: seq<Taken>, p: seq<Taken>, n: nat)
    requires ValidIsa(x.isa) && x.isa == y.isa && x.ras == y.ras && ValidRas(a.ras)
    requires OnPath(x, code, a, o) && OnPath(y, code, a, p) && n <= |o| && n <= |p|
    ensures Agree(o, p, n) <==> n == 0 || StrayAlike(x, o, p, n - 1)
  {
    hide ValidIsa, InstrAt, OnPath, Fold, ValidRas, ArchNext, Strays;
    if n > 1 { OnePath(x, y, code, a, o, p, n - 1); }
    if n > 0 {
      PathAt(x, code, a, o, n - 1);
      PathAt(y, code, a, p, n - 1);
      if n == 1 || (Agree(o, p, n - 1) && StrayAlike(x, o, p, n - 2)) { NextAgree(x, y, code, a, o, p, n); }
    }
  }

  lemma NextAgree(x: Ctx, y: Ctx, code: Addr -> Half, a: Arch, o: seq<Taken>, p: seq<Taken>, n: nat)
    requires ValidIsa(x.isa) && x.isa == y.isa && x.ras == y.ras && ValidRas(a.ras)
    requires OnPath(x, code, a, o) && OnPath(y, code, a, p) && 0 < n <= |o| && n <= |p|
    requires Agree(o, p, n - 1) && (n > 1 ==> StrayAlike(x, o, p, n - 2))
    ensures o[n - 1].e == p[n - 1].e <==> n == 1 || (Strays(x, o[n - 2]) <==> Strays(x, p[n - 2]))
  {
    hide ValidIsa, OnPath, Fold, ValidRas, ArchNext, Strays;
    PathAt(x, code, a, o, n - 1);
    PathAt(y, code, a, p, n - 1);
    if n == 1 {
      SameFold(x, y, a, o, p, 0);
    } else {
      PathAt(x, code, a, o, n - 2);
      SameFold(x, y, a, o, p, n - 2);
      SameStack(x, y, Fold(x, a, o[..n - 2]), Fold(y, a, p[..n - 2]), o[n - 2], p[n - 2]);
    }
    if Fold(x, a, o[..n - 1]).pc == Fold(y, a, p[..n - 1]).pc {
      OneInstr(x, code, Fold(x, a, o[..n - 1]).pc, o[n - 1].e, p[n - 1].e);
    }
  }

  /** Prediction is transparent.  Take two runs, with the buffer or without, whatever it holds, under any
    timing: from the same address and return-address stack they emit the same instructions, as far as both
    have gone, exactly if every illegal instruction of several words ends on a mark in both or in neither. */
  lemma Transparent(x: Ctx, y: Ctx, code: Addr -> Half, ss: seq<Front>, es: seq<FrontIn>, i: nat,
                    tt: seq<Front>, fs: seq<FrontIn>, j: nat, n: nat)
    requires x.isa == y.isa && x.ras == y.ras
    requires FrontRun(x, code, ss, es) && i < |ss| && FrontRun(y, code, tt, fs) && j < |tt|
    requires ss[i].start == tt[j].start
    requires n <= |ss[i].out| && n <= |tt[j].out|
    ensures Agree(ss[i].out, tt[j].out, n) <==> n == 0 || StrayAlike(x, ss[i].out, tt[j].out, n - 1)
  {
    AlwaysFront(x, code, ss, es, i);
    AlwaysFront(y, code, tt, fs, j);
    hide FrontRun, ValidF, Stream, Gathering, OnPath, Fold, Strays;
    OnePath(x, y, code, ss[i].start, ss[i].out, tt[j].out, n);
  }

  lemma {:induction false} NoMarks(x: Ctx, code: Addr -> Half, ss: seq<Front>, es: seq<FrontIn>, i: nat)
    requires FrontRun(x, code, ss, es) && i < |ss| && !x.c.btb
    ensures forall k :: 0 <= k < |ss[i].out| ==> !ss[i].out[k].mk
  {
    hide ValidIsa, Served, NextFront, Consume, MkEnd;
    if i > 0 {
      NoMarks(x, code, ss, es, i - 1);
      NoMarkAdded(x, ss[i - 1], es[i - 1]);
    }
  }

  lemma NoMarkAdded(x: Ctx, s: Front, i: FrontIn)
    requires ValidF(s.f) && ValidRas(s.ras) && ValidRas(s.arch.ras) && Consume(x, s, i) <= Avail(s) && !x.c.btb
    ensures var o := NextFront(x, s, i).out;
            o == [] || o == s.out || (o == s.out + [o[|o| - 1]] && !o[|o| - 1].mk)
  {
    hide Plus, ViewOf, Instr, NextF, IdRedirect, BtbWrite, RasNext, ArchNext, Consume, Complete;
  }

  /** So a run with the buffer emits what the core without it does exactly as far as no mark has ended an illegal
    instruction of several words. */
  lemma TransparentUntilStray(x: Ctx, y: Ctx, code: Addr -> Half, ss: seq<Front>, es: seq<FrontIn>, i: nat,
                              tt: seq<Front>, fs: seq<FrontIn>, j: nat, n: nat)
    requires x.isa == y.isa && x.ras == y.ras && !y.c.btb
    requires FrontRun(x, code, ss, es) && i < |ss| && FrontRun(y, code, tt, fs) && j < |tt|
    requires ss[i].start == tt[j].start
    requires n <= |ss[i].out| && n <= |tt[j].out|
    ensures Agree(ss[i].out, tt[j].out, n) <==> forall k :: 0 <= k < n - 1 ==> !Strays(x, ss[i].out[k])
  {
    hide FrontRun;
    Transparent(x, y, code, ss, es, i, tt, fs, j, n);
    NoMarks(y, code, tt, fs, j);
  }

  /** Between two emissions, or after a redirect from a later stage, an instruction is dropped and fetched again at
    most as often as the buffer has entries, however often it is cleared. */
  lemma NoLivelock(x: Ctx, code: Addr -> Half, ss: seq<Front>, es: seq<FrontIn>, i: nat)
    requires FrontRun(x, code, ss, es) && i < |ss|
    ensures ss[i].tries <= BTB_N
  {
    AlwaysFront(x, code, ss, es, i);
  }

  /** In every run each emission is the instruction in the code where the program is, and the program goes on where
    it would without prediction exactly if the emission does not stray. */
  lemma EmitsCode(x: Ctx, code: Addr -> Half, ss: seq<Front>, es: seq<FrontIn>, i: nat)
    requires FrontRun(x, code, ss, es) && i < |es| && Emits(x, ss[i], es[i])
    ensures var t := Taken(Instr(x, ss[i]), MkEnd(x, ss[i], es[i]));
            && InstrAt(x.isa, code, ss[i].arch.pc, t.e)
            && ss[i + 1].arch == ArchNext(x, ss[i].arch, t) && ss[i + 1].f.r.qpc == ss[i + 1].arch.pc
            && (ss[i + 1].arch.pc == PathNext(x, ss[i].ras, t.e) <==> !Strays(x, t))
  {
    AlwaysFront(x, code, ss, es, i);
    EmitsRight(x, code, ss[i], es[i]);
    hide FrontInv, ArchNext, Strays, PathNext, InstrAt;
    ContinuesRight(x, code, ss[i], es[i]);
  }
}
