/** Every clock keeps the store-order invariant. */
module StoreOrderProof {
  import opened Memory
  import opened BusControl
  import opened Splitting
  import opened Forwarding
  import opened StoreOrder

  /** The memory all stores sent so far will make, from memory as it is. */
  lemma IdealFromMem(k: Core, s: Sys)
    requires Lined(k, s) && MemIs(k, s) && Accounted(k, s)
    ensures ApplyAll(k.x, s.mem, InFlight(k, s)) == ApplyAll(k.x, s.m0, s.sent)
  {
    var base := ApplyAll(k.x, s.m0, s.landed);
    var f := InFlight(k, s);
    ApplyAllJoins(k.x, s.m0, s.landed, f);
    if IsStore(s) {
      var t := s.b.bus.value.AsStore();
      assert f[0] == t;
      assert f == [t] + f[1..];
      ApplyAllJoins(k.x, s.mem, [t], f[1..]);
      ApplyAllJoins(k.x, base, [t], f[1..]);
      ApplyOne(k.x, s.mem, [t]);
      ApplyOne(k.x, base, [t]);
      ResumeAll(k.x, base, t, Covered(SplitX(k.c, s.b.bus.value), s.b.bus.value.size, s.b.bus.value.i));
    }
  }

  // ---------------------------------------------------------------- stores move, none is lost or doubled

  predicate Synced(k: Core, s: Sys, e: Env) { StDoneC(k.c, s.b, BusIn(k, s, e)) }

  predicate Popped(k: Core, s: Sys, e: Env) { Pops(k.c, s.b, BusIn(k, s, e)) }

  predicate Posted(k: Core, s: Sys) { WbPost(s) && !SbFull(k.c, s.b) }

  /** WB's store when it neither leaves for the queue nor lands in this clock. */
  function Stay(k: Core, s: Sys, e: Env): seq<Store> {
    if WbHold(k, s, e) && !Synced(k, s, e) then WbPart(k, s) else []
  }

  function One(o: Option<Store>, b: bool): seq<Store> { if o.Some? && b then [o.value] else [] }

  lemma QueueMoves(k: Core, s: Sys, e: Env)
    requires Lined(k, s)
    ensures s.b.fifo + One(WbStore(s), Posted(k, s)) ==
              One(if s.b.fifo != [] then Some(s.b.fifo[0]) else None, Popped(k, s, e)) + NextFifo(k.c, s.b, BusIn(k, s, e))
  {
    hide Hits, Fwd, Hold, FastHit, SplitX, Pieces, Last;
    if Popped(k, s, e) { assert s.b.fifo == [s.b.fifo[0]] + s.b.fifo[1..]; }
  }

  lemma WbMoves(k: Core, s: Sys, e: Env)
    requires Lined(k, s)
    ensures WbPart(k, s) == One(WbStore(s), Posted(k, s)) + One(WbStore(s), Synced(k, s, e)) + Stay(k, s, e)
    ensures Synced(k, s, e) ==> IsStore(s) && WbStore(s) == Some(s.b.bus.value.AsStore())
    ensures Popped(k, s, e) ==> IsStore(s) && s.b.fifo != [] && s.b.fifo[0] == s.b.bus.value.AsStore() && !Synced(k, s, e)
    ensures Synced(k, s, e) ==> s.b.fifo == [] && !Posted(k, s)
  {
    hide Hits, Fwd, Hold, FastHit, SplitX, Pieces, Last;
  }

  lemma LaterMoves(k: Core, s: Sys, e: Env)
    requires Lined(k, s) && Legal(k, s, e)
    ensures var s' := NextSys(k, s, e);
            && WbPart(k, s') + StoresOf(s'.ex) == Stay(k, s, e) + StoresOf(s.ex) + StoresOf(e.dispatch)
            && s'.b.fifo == NextFifo(k.c, s.b, BusIn(k, s, e))
  {
    hide Hits, Fwd, Hold, FastHit, SplitX, Pieces, Last, NextRd, NextFt, NextLooked, NextMem, NextBus, NextFifo;
  }

  /** What one clock does to the stores on their way. */
  lemma Moves(k: Core, s: Sys, e: Env)
    requires Lined(k, s) && Legal(k, s, e)
    ensures var done := Synced(k, s, e) || Popped(k, s, e);
            && (done ==> IsStore(s))
            && InFlight(k, s) + StoresOf(e.dispatch) ==
                 (if done then [s.b.bus.value.AsStore()] else []) + InFlight(k, NextSys(k, s, e))
  {
    hide Stay, Synced, Popped, Posted, NextFifo, WbPart, StoresOf, BusIn, NextSys, WbStore, Legal, Next, NextMem;
    QueueMoves(k, s, e);
    WbMoves(k, s, e);
    LaterMoves(k, s, e);
    hide Lined;
    var s' := NextSys(k, s, e);
    var h := One(if s.b.fifo != [] then Some(s.b.fifo[0]) else None, Popped(k, s, e));
    var y := One(WbStore(s), Synced(k, s, e));
    Regroup(s.b.fifo, One(WbStore(s), Posted(k, s)), y, Stay(k, s, e), StoresOf(s.ex), StoresOf(e.dispatch),
            h, s'.b.fifo, WbPart(k, s') + StoresOf(s'.ex));
    assert InFlight(k, s') == s'.b.fifo + (WbPart(k, s') + StoresOf(s'.ex));
  }

  lemma Regroup(f: seq<Store>, p: seq<Store>, y: seq<Store>, st: seq<Store>, x: seq<Store>, d: seq<Store>,
                h: seq<Store>, f': seq<Store>, r: seq<Store>)
    requires f + p == h + f' && r == st + x + d && (y != [] ==> f + p == [])
    ensures (f + (p + y + st) + x) + d == (h + y) + (f' + r)
  {
    assert (f + (p + y + st) + x) + d == (f + p) + y + r;
    if y == [] { assert (h + f') + y + r == (h + y) + (f' + r); }
  }

  lemma KeepsAccounted(k: Core, s: Sys, e: Env)
    requires Lined(k, s) && Legal(k, s, e) && Accounted(k, s)
    ensures Accounted(k, NextSys(k, s, e))
    ensures NextSys(k, s, e).landed ==
              s.landed + if Synced(k, s, e) || Popped(k, s, e) then [s.b.bus.value.AsStore()] else []
  {
    hide InFlight, NextMem, Next, BusIn, Legal;
    Moves(k, s, e);
    hide Lined;
    var s' := NextSys(k, s, e);
    var t := if Synced(k, s, e) || Popped(k, s, e) then [s.b.bus.value.AsStore()] else [];
    assert s.sent + StoresOf(e.dispatch) == s.landed + (InFlight(k, s) + StoresOf(e.dispatch));
    assert s.landed + (t + InFlight(k, s')) == (s.landed + t) + InFlight(k, s');
  }

  lemma QueueLined(k: Core, s: Sys, e: Env)
    requires ValidCore(k) && Lined(k, s) && Legal(k, s, e)
    ensures var s' := NextSys(k, s, e);
            && |s'.b.fifo| <= k.c.n && (!k.c.mix ==> s'.b.fifo == [])
            && (s'.wb.Some? && s'.wb.value.post ==> k.c.mix && !s'.wb.value.lock)
            && (s'.ex.Some? ==> ValidUop(s'.ex.value))
            && (s'.b.bus.Some? ==> s'.b.bus.value.i < Pieces(SplitX(k.c, s'.b.bus.value), s'.b.bus.value.size))
  {
    hide Hits, Fwd, Hold, FastHit, SplitOf, NextRd, NextFt, NextLooked, NextMem, NextSlot, QuietI, StDone, Gather;
  }

  lemma PostedLined(k: Core, s: Sys, e: Env)
    requires ValidCore(k) && Lined(k, s) && Legal(k, s, e)
    ensures var s' := NextSys(k, s, e);
            IsStore(s') && s'.b.bus.value.fifo ==> s'.b.fifo != [] && s'.b.fifo[0] == s'.b.bus.value.AsStore()
  {
    hide Hits, Fwd, Hold, FastHit, SplitX, Pieces, NextRd, NextFt, NextLooked, NextMem, NextSlot, QuietI, StDone, Gather, WbHold, ExStall;
  }

  lemma SyncLined(k: Core, s: Sys, e: Env)
    requires ValidCore(k) && Lined(k, s) && Legal(k, s, e)
    ensures var s' := NextSys(k, s, e);
            && (IsStore(s') && !s'.b.bus.value.fifo ==>
                  && s'.b.fifo == [] && WbStore(s') == Some(s'.b.bus.value.AsStore()) && !WbPost(s')
                  && !(k.c.doneReg && s'.b.q.stDoneQ))
            && (k.c.doneReg && s'.b.q.stDoneQ ==>
                  && s'.b.bus.None? && s'.b.fifo == [] && WbStore(s').Some? && !WbPost(s')
                  && s'.landed != [] && s'.landed[|s'.landed| - 1] == WbStore(s').value)
  {
    WbMoves(k, s, e);
    hide Hits, Fwd, Hold, FastHit, SplitX, Pieces, NextRd, NextFt, NextLooked, NextMem, NextSlot, QuietI, Gather, Stay, One, Posted;
  }

  lemma KeepsLined(k: Core, s: Sys, e: Env)
    requires ValidCore(k) && Lined(k, s) && Legal(k, s, e)
    ensures Lined(k, NextSys(k, s, e))
  {
    QueueLined(k, s, e);
    PostedLined(k, s, e);
    SyncLined(k, s, e);
    hide NextSys, Legal, SplitX, Pieces;
  }

  // ---------------------------------------------------------------- memory

  /** An acknowledged piece of a store extends what memory has of it by that piece. */
  lemma PieceLands(k: Core, s: Sys, e: Env)
    requires ValidCore(k) && Lined(k, s) && Legal(k, s, e) && MemIs(k, s)
    requires IsStore(s) && Done(s.b, BusIn(k, s, e))
    ensures var t := s.b.bus.value;
            var n := Covered(SplitX(k.c, t), t.size, t.i + 1);
            && n <= Bytes(t.size) && NextMem(k, s, e) == Put(k.x, ApplyAll(k.x, s.m0, s.landed), t.AsStore(), n)
            && (Last(k.c, t) ==> n == Bytes(t.size))
  {
    hide Crosses, Misal, WSplit, SplitOf, PieceAddr, PieceData, Phys;
    var t := s.b.bus.value;
    PieceWrites(k.c, k.x, ApplyAll(k.x, s.m0, s.landed), t.AsStore(), t.i);
    PiecesTile(k.c, t.addr, t.size);
  }

  lemma KeepsMem(k: Core, s: Sys, e: Env)
    requires ValidCore(k) && Lined(k, s) && Legal(k, s, e) && MemIs(k, s)
    ensures MemIs(k, NextSys(k, s, e))
  {
    hide Hits, Fwd, Hold, FastHit, NextSys, MemIs, Lined, Legal;
    if IsStore(s) && Done(s.b, BusIn(k, s, e)) { PieceKeepsMem(k, s, e); } else { OtherKeepsMem(k, s, e); }
  }

  lemma PieceKeepsMem(k: Core, s: Sys, e: Env)
    requires ValidCore(k) && Lined(k, s) && Legal(k, s, e) && MemIs(k, s) && IsStore(s) && Done(s.b, BusIn(k, s, e))
    ensures MemIs(k, NextSys(k, s, e))
  {
    PieceLands(k, s, e);
    hide NextMem, Hits, Fwd, Hold, FastHit, SplitOf, NextRd, NextFt, NextLooked, NextFifo, NextSlot, QuietI, Pieces, Lined, Legal,
      WbHold, ExStall, Phys, ValidCore, Put;
    ApplyAllJoins(k.x, s.m0, s.landed, [s.b.bus.value.AsStore()]);
    ApplyOne(k.x, ApplyAll(k.x, s.m0, s.landed), [s.b.bus.value.AsStore()]);
  }

  lemma OtherKeepsMem(k: Core, s: Sys, e: Env)
    requires MemIs(k, s) && !(IsStore(s) && Done(s.b, BusIn(k, s, e)))
    ensures MemIs(k, NextSys(k, s, e))
  {
    hide Hits, Fwd, Hold, FastHit, SplitOf, NextRd, NextFt, NextLooked, NextFifo, NextSlot, QuietI, Pieces, WbHold, ExStall, Phys,
      ApplyAll, Gather;
  }

  // ---------------------------------------------------------------- reads

  lemma KeepsReadPlace(k: Core, s: Sys, e: Env)
    requires ValidCore(k) && Lined(k, s) && Legal(k, s, e) && ReadPlace(s)
    ensures ReadPlace(NextSys(k, s, e))
  {
    hide Hits, Crosses, Misal, WSplit, SplitOf, NextFt, NextLooked, NextMem, NextFifo, Pieces, QuietI;
  }

  lemma KeepsPortReads(k: Core, s: Sys, e: Env)
    requires ValidCore(k) && Lined(k, s) && Legal(k, s, e) && ReadPlace(s) && PortReads(k, s) && Accounted(k, s)
    ensures PortReads(k, NextSys(k, s, e))
  {
    KeepsAccounted(k, s, e);
    if IsRead(s) && Done(s.b, BusIn(k, s, e)) && !Fin(k.c, s.b, BusIn(k, s, e)) {
      var t := s.b.bus.value;
      GatherOne(k.c, k.x, s.mem, t.AsRead(), t.i, t.acc, e.rdata);
    }
    hide Hits, Fwd, Hold, FastHit, Crosses, Misal, WSplit, SplitOf, NextRd, NextFt, NextLooked, NextFifo, Pieces,
      QuietI, Gather, AnswersPiece;
  }

  /** Memory changes in a clock only by a piece of a store on its way (and not in EX). */
  lemma MemChange(k: Core, s: Sys, e: Env, r: Read)
    requires ValidCore(k) && Lined(k, s) && Legal(k, s, e) && MemIs(k, s)
    requires AllApart(k, s.b.fifo + WbPart(k, s), r)
    ensures Same(k.x, s.mem, NextMem(k, s, e), r)
  {
    if IsStore(s) && Done(s.b, BusIn(k, s, e)) {
      var t := s.b.bus.value;
      var base := ApplyAll(k.x, s.m0, s.landed);
      PieceLands(k, s, e);
      hide NextMem, SplitOf, Phys, Hits, Fwd, Hold, FastHit;
      assert (s.b.fifo + WbPart(k, s))[0] == t.AsStore();
      ApartKeeps(k.x, base, t.AsStore(), Covered(SplitX(k.c, t), t.size, t.i), r);
      ApartKeeps(k.x, base, t.AsStore(), Covered(SplitX(k.c, t), t.size, t.i + 1), r);
    }
  }

  /** Stores waiting after the clock were waiting, in WB or in EX before it. */
  lemma WaitingFrom(k: Core, s: Sys, e: Env, r: Read)
    requires ValidCore(k) && Lined(k, s) && Legal(k, s, e)
    requires AllApart(k, s.b.fifo + WbPart(k, s), r)
    requires !WbHold(k, s, e) ==> AllApart(k, StoresOf(s.ex), r)
    ensures var s' := NextSys(k, s, e); AllApart(k, s'.b.fifo + WbPart(k, s'), r)
  {
    hide Hits, Fwd, Hold, FastHit, Crosses, Misal, WSplit, SplitOf, NextRd, NextFt, NextLooked, NextMem, QuietI,
      Apart, NextBus;
    var s' := NextSys(k, s, e);
    var f := s.b.fifo + WbPart(k, s);
    forall j | 0 <= j < |s'.b.fifo + WbPart(k, s')|
      ensures Apart(k.x, (s'.b.fifo + WbPart(k, s'))[j], r)
    {
      if j < |s'.b.fifo| {
        var p := if Popped(k, s, e) then 1 else 0;
        if j + p < |s.b.fifo| {
          assert s'.b.fifo[j] == f[j + p];
        } else {
          assert s'.b.fifo[j] == f[|s.b.fifo|];
        }
      } else if WbHold(k, s, e) {
        assert WbPart(k, s')[0] == f[|s.b.fifo|];
      } else {
        assert WbPart(k, s')[0] == StoresOf(s.ex)[0];
      }
    }
  }

  // ---------------------------------------------------------------- the fast path's verdicts

  lemma NoHitApart(k: Core, o: Option<Store>, r: Read)
    requires !Hits(o, r)
    ensures o.Some? ==> Apart(k.x, o.value, r)
  {
    if o.Some? {
      FiltersAgree(o.value.addr, o.value.size, r.addr, r.size);
      FilterConservative(k.x, o.value, r);
    }
  }

  lemma QueueApart(k: Core, fifo: seq<Store>, r: Read)
    requires !LkHit(fifo, r)
    ensures AllApart(k, fifo, r)
  {
    forall j | 0 <= j < |fifo| ensures Apart(k.x, fifo[j], r) {
      NoHitApart(k, Some(fifo[j]), r);
    }
  }

  /** EX's store is out of the way in an answer clock that is quiet. */
  lemma AnswerApart(k: Core, s: Sys, r: Read)
    requires Lined(k, s)
    requires s.b.slot.Some? && s.b.slot.value.rd == r
    requires if k.precise then !Hits(ExStore(s), r) else !OlderStore(s)
    ensures AllApart(k, StoresOf(s.ex), r)
  {
    if k.precise { NoHitApart(k, ExStore(s), r); }
    hide Lwo, Apart;
  }

  /** A quiet issue clock: no store on its way touches the read. */
  lemma IssueApart(k: Core, s: Sys, r: Read)
    requires Lined(k, s) && QuietI(k, s, r) && !(k.c.mix && LkHit(s.b.fifo, r))
    ensures AllApart(k, s.b.fifo + WbPart(k, s), r) && AllApart(k, StoresOf(s.ex), r)
  {
    if k.c.mix { QueueApart(k, s.b.fifo, r); }
    if k.precise {
      NoHitApart(k, ExStore(s), r);
      NoHitApart(k, WbStore(s), r);
    }
    hide Lwo, Apart, LkHit;
  }

  lemma LookVerdict(k: Core, s: Sys, e: Env)
    requires ValidCore(k) && Lined(k, s) && Legal(k, s, e) && MemIs(k, s)
    requires e.issue.Some?
    ensures var s' := NextSys(k, s, e);
            var r := e.issue.value.rd;
            s'.q1 && !(k.c.mix && s'.b.q.lk.ovl) ==>
              AllApart(k, s'.b.fifo + WbPart(k, s'), r) && Same(k.x, s'.mem, s'.mem1, r)
  {
    hide Crosses, Misal, WSplit, SplitOf, NextRd, NextFt, NextMem, NextFifo, NextBus, Lwo, Apart, Search, LkHit, Fwd,
      Hold, FastHit, Phys;
    var r := e.issue.value.rd;
    var s' := NextSys(k, s, e);
    if s'.q1 && !(k.c.mix && s'.b.q.lk.ovl) {
      IssueApart(k, s, r);
      WaitingFrom(k, s, e, r);
      MemChange(k, s, e, r);
    }
  }

  lemma HoldVerdict(k: Core, s: Sys, e: Env)
    requires ValidCore(k) && Lined(k, s) && Legal(k, s, e) && MemIs(k, s) && Verdicts(k, s)
    requires Hold(k, s, e) && s.b.slot.Some?
    ensures var s' := NextSys(k, s, e);
            var r := s.b.slot.value.rd;
            && AllApart(k, s'.b.fifo + WbPart(k, s'), r)
            && Same(k.x, s'.mem, s'.mem1, r) && Same(k.x, s'.mem, s'.mem2, r)
  {
    hide Crosses, Misal, WSplit, SplitOf, NextRd, NextFt, NextLooked, NextMem, NextFifo, NextBus, Lwo, Apart, Fwd,
      FastHit, Phys, Next;
    var r := s.b.slot.value.rd;
    AnswerApart(k, s, r);
    WaitingFrom(k, s, e, r);
    MemChange(k, s, e, r);
  }

  /** Applying the last store again, on top of itself, changes nothing. */
  lemma LastAgain(x: Pages, m: Mem, ss: seq<Store>)
    requires ss != []
    ensures Apply(x, ApplyAll(x, m, ss), ss[|ss| - 1]) == ApplyAll(x, m, ss)
  {
    ResumeAll(x, ApplyAll(x, m, ss[..|ss| - 1]), ss[|ss| - 1], Bytes(ss[|ss| - 1].size));
  }

  /** WB's store, counted although memory has it, makes no difference. */
  lemma FrontSeen(k: Core, s: Sys)
    requires Lined(k, s) && MemIs(k, s)
    ensures ApplyAll(k.x, s.mem, s.b.fifo + One(WbStore(s), true)) == ApplyAll(k.x, s.mem, s.b.fifo + WbPart(k, s))
  {
    hide SplitX, Covered, Phys, Pieces, Put, Apply;
    if k.c.doneReg && s.b.q.stDoneQ {
      LastAgain(k.x, s.m0, s.landed);
      ApplyOne(k.x, s.mem, [WbStore(s).value]);
      assert s.b.fifo + One(WbStore(s), true) == [WbStore(s).value];
      assert s.b.fifo + WbPart(k, s) == [];
    }
  }

  /** The stores the search sees, against those on their way. */
  lemma SeenIsIdeal(k: Core, s: Sys, r: Read)
    requires Lined(k, s) && MemIs(k, s) && Accounted(k, s)
    requires (if k.precise then !Hits(ExStore(s), r) else !OlderStore(s)) || ExPush(s)
    ensures var seen := Seen(s.b.fifo, if ExPush(s) then ExStore(s) else None, WbStore(s));
            Same(k.x, ApplyAll(k.x, s.mem, seen), ApplyAll(k.x, s.m0, s.sent), r)
  {
    hide Lwo, Phys, MemIs, Accounted, Apply, Apart, Lined, ApplyAll, WbPart, One, Seen, Hits;
    var f := s.b.fifo + One(WbStore(s), true);
    var p := if ExPush(s) then StoresOf(s.ex) else [];
    IdealFromMem(k, s);
    FrontSeen(k, s);
    SeenIs(k, s);
    ApplyAllJoins(k.x, s.mem, s.b.fifo + WbPart(k, s), StoresOf(s.ex));
    ApplyAllJoins(k.x, s.mem, f, p);
    if !ExPush(s) {
      ExApart(k, s, r);
      AllApartKeeps(k.x, ApplyAll(k.x, s.mem, f), StoresOf(s.ex), r);
      assert f + p == f;
    }
  }

  lemma SeenIs(k: Core, s: Sys)
    requires Lined(k, s)
    ensures Seen(s.b.fifo, if ExPush(s) then ExStore(s) else None, WbStore(s))
              == s.b.fifo + One(WbStore(s), true) + if ExPush(s) then StoresOf(s.ex) else []
  {
  }

  lemma ExApart(k: Core, s: Sys, r: Read)
    requires Lined(k, s) && if k.precise then !Hits(ExStore(s), r) else !OlderStore(s)
    ensures AllApart(k, StoresOf(s.ex), r)
  {
    if k.precise { NoHitApart(k, ExStore(s), r); }
    hide Lwo, Apart;
  }

  lemma ForwardVerdict(k: Core, s: Sys, e: Env)
    requires ValidCore(k) && Lined(k, s) && Legal(k, s, e) && MemIs(k, s) && Accounted(k, s)
    requires e.issue.Some?
    ensures var s' := NextSys(k, s, e);
            var r := e.issue.value.rd;
            s'.fq1 && s'.b.q.lk.fwOk && AllApart(k, StoresOf(s'.ex), r) ==>
              Answers(k.x, ApplyAll(k.x, s'.m0, s'.sent), r, s'.b.q.lk.fwData)
  {
    var r := e.issue.value.rd;
    var s' := NextSys(k, s, e);
    if s'.fq1 && s'.b.q.lk.fwOk && AllApart(k, StoresOf(s'.ex), r) {
      hide Crosses, Misal, WSplit, SplitOf, NextRd, NextFt, NextMem, NextFifo, NextBus, Lwo, Apart, Search, LkHit,
        Fwd, Hold, FastHit, Phys, Apply, Seen;
      var exs := if ExPush(s) then ExStore(s) else None;
      var v := s'.b.q.lk.fwData;
      var seen := Seen(s.b.fifo, exs, WbStore(s));
      SearchExact(k.x, s.mem, s.b.fifo, exs, WbStore(s), s.wb.Some? && !s.wb.value.lock, r);
      assert Answers(k.x, ApplyAll(k.x, s.mem, seen), r, v);
      SeenIsIdeal(k, s, r);
      SameAnswers(k.x, ApplyAll(k.x, s.mem, seen), ApplyAll(k.x, s.m0, s.sent), r, v);
      ApplyAllJoins(k.x, s.m0, s.sent, StoresOf(e.dispatch));
      if e.dispatch.Some? {
        AllApartKeeps(k.x, ApplyAll(k.x, s.m0, s.sent), StoresOf(e.dispatch), r);
        SameAnswers(k.x, ApplyAll(k.x, s.m0, s.sent), ApplyAll(k.x, s.m0, s'.sent), r, v);
      } else {
        assert s'.sent == s.sent;
      }
    }
  }

  lemma KeepsVerdicts(k: Core, s: Sys, e: Env)
    requires ValidCore(k) && Lined(k, s) && Legal(k, s, e) && MemIs(k, s) && Accounted(k, s) && ReadPlace(s) && Verdicts(k, s)
    ensures Verdicts(k, NextSys(k, s, e))
  {
    var s' := NextSys(k, s, e);
    if s'.b.slot.Some? {
      hide Crosses, Misal, WSplit, SplitOf, NextRd, NextFt, NextMem, NextFifo, NextBus, NextLooked, Lwo, Apart,
        Search, LkHit, Fwd, Phys, Apply;
      if e.issue.Some? {
        LookVerdict(k, s, e);
        ForwardVerdict(k, s, e);
      }
      if s'.m2 { HoldVerdict(k, s, e); }
    }
  }

  // ---------------------------------------------------------------- answers

  /** The last piece of a port read: the answer is memory's. */
  lemma PortAnswer(k: Core, s: Sys, e: Env)
    requires ValidCore(k) && Lined(k, s) && Legal(k, s, e) && MemIs(k, s) && PortReads(k, s)
    requires PortRead(k.c, s.b, BusIn(k, s, e)) && !e.flt
    ensures Answers(k.x, ApplyAll(k.x, s.m0, s.sent[..s.at]), s.b.bus.value.AsRead(), NextSys(k, s, e).b.q.rd.data)
  {
    var t := s.b.bus.value;
    AssembleAll(k.c, k.x, s.mem, t.AsRead(), t.i, t.acc, e.rdata);
    hide Crosses, Misal, WSplit, SplitOf, NextFt, NextMem, NextFifo, NextBus, NextLooked, Lwo, Phys, Fwd, Hold,
      FastHit, Assemble, Answers;
  }

  /** The data read path's answer: the memory every store sent so far will make. */
  lemma FastAnswer(k: Core, s: Sys, e: Env)
    requires ValidCore(k) && Lined(k, s) && Legal(k, s, e) && MemIs(k, s) && Accounted(k, s) && Verdicts(k, s)
    requires s.b.slot.Some? && (FastHit(k, s, e) || Fwd(k, s, e))
    ensures Answers(k.x, ApplyAll(k.x, s.m0, s.sent), s.b.slot.value.rd,
                    if Fwd(k, s, e) then s.b.q.lk.fwData else e.hitData)
  {
    var r := s.b.slot.value.rd;
    AnswerApart(k, s, r);
    if !Fwd(k, s, e) {
      hide Lwo, Apart, Phys, Apply, SplitOf, Crosses, Misal, LkHit, Search;
      assert Answers(k.x, s.mem, r, e.hitData);
      forall j | 0 <= j < |InFlight(k, s)| ensures Apart(k.x, InFlight(k, s)[j], r) {
        var f := s.b.fifo + WbPart(k, s);
        if j < |f| { assert InFlight(k, s)[j] == f[j]; } else { assert InFlight(k, s)[j] == StoresOf(s.ex)[j - |f|]; }
      }
      AllApartKeeps(k.x, s.mem, InFlight(k, s), r);
      IdealFromMem(k, s);
    }
  }

  lemma KeepsAnswer(k: Core, s: Sys, e: Env)
    requires ValidCore(k) && Legal(k, s, e) && Inv(k, s)
    ensures AnswerExact(k, NextSys(k, s, e))
  {
    var s' := NextSys(k, s, e);
    var i := BusIn(k, s, e);
    if s'.b.q.rd.ack && !s'.b.q.rd.err {
      var n := if PortRead(k.c, s.b, i) then s.at else |s.sent|;
      if PortRead(k.c, s.b, i) { PortAnswer(k, s, e); } else { FastAnswer(k, s, e); }
      hide Crosses, Misal, WSplit, SplitOf, NextFt, NextMem, NextFifo, NextBus, NextLooked, Lwo, Phys, Fwd, Hold,
           FastHit, Assemble, Answers, Verdicts, Apply, QuietI;
      assert s'.pend == s.pend;
      assert s'.sent[..n] == s.sent[..n];
      assert s.sent[..|s.sent|] == s.sent;
    }
  }

  lemma InitInv(k: Core, s: Sys)
    requires ValidCore(k) && Init(k, s)
    ensures Inv(k, s)
  {
  }

  /** The invariant is inductive. */
  lemma KeepsInv(k: Core, s: Sys, e: Env)
    requires ValidCore(k) && Legal(k, s, e) && Inv(k, s)
    ensures Inv(k, NextSys(k, s, e))
  {
    hide NextSys, Legal, Lined, MemIs, Accounted, ReadPlace, PortReads, Verdicts, AnswerExact;
    KeepsLined(k, s, e);
    KeepsMem(k, s, e);
    KeepsAccounted(k, s, e);
    KeepsReadPlace(k, s, e);
    KeepsPortReads(k, s, e);
    KeepsVerdicts(k, s, e);
    KeepsAnswer(k, s, e);
  }

  // ---------------------------------------------------------------- over whole runs

  lemma {:induction false} Always(k: Core, ss: seq<Sys>, es: seq<Env>, i: nat)
    requires Run(k, ss, es) && i < |ss|
    ensures Inv(k, ss[i])
  {
    hide Inv, Init, Legal, NextSys;
    if i == 0 {
      InitInv(k, ss[0]);
    } else {
      Always(k, ss, es, i - 1);
      KeepsInv(k, ss[i - 1], es[i - 1]);
    }
  }

  lemma {:induction false} PatientIssue(k: Core, ss: seq<Sys>, es: seq<Env>, i: nat)
    requires Run(k, ss, es) && i < |ss|
    requires forall j :: 0 <= j < i ==> Patient(ss[j], es[j])
    ensures ss[i].pend.Some? ==> ss[i].pend.value.since == |ss[i].sent|
  {
    if i > 0 {
      PatientIssue(k, ss, es, i - 1);
      hide Legal, NextMem, Next, ExStall, WbHold, BusIn, QuietI, Hold;
      assert Patient(ss[i - 1], es[i - 1]) && ss[i] == NextSys(k, ss[i - 1], es[i - 1]);
    }
  }

  /** A data read is answered once its last piece is, or memory faults one, or in a clock in which the read path has it;
    with an access error exactly if memory gave one. */
  lemma ReadAnswer(k: Core, ss: seq<Sys>, es: seq<Env>, i: nat)
    requires Run(k, ss, es) && 0 < i < |ss|
    ensures var s, e := ss[i - 1], es[i - 1];
            && (ss[i].b.q.rd.ack <==>
                  || ReadFaulted(ss, es, i)
                  || (IsRead(s) && s.b.bus.value.high && e.ack && Last(k.c, s.b.bus.value))
                  || (s.b.slot.Some? && (FastHit(k, s, e) || Fwd(k, s, e))))
            && (ss[i].b.q.rd.ack ==> (ss[i].b.q.rd.err <==> ReadFaulted(ss, es, i)))
  {
    hide Legal, NextMem, NextFt, NextLooked, NextFifo, NextBus, NextSlot, SplitX, Pieces, Last, FastHit, Fwd, Hold, Assemble,
      WbHold, ExStall, QuietI, Hits;
    assert ss[i] == NextSys(k, ss[i - 1], es[i - 1]);
    ReadPath(ss[i - 1].b, BusIn(k, ss[i - 1], es[i - 1]), k.c);
  }

  lemma ReadPath(s: State, i: In, c: Cfg)
    ensures var a := Next(c, s, i).q.rd;
            var port := s.bus.Some? && s.bus.value.kind == KRead && s.bus.value.high;
            && (a.ack <==> (port && (i.flt || (i.ack && Last(c, s.bus.value)))) || (s.slot.Some? && (i.rdFast || i.rdFwd)))
            && (a.ack ==> (a.err <==> port && i.flt))
  {
    hide NextFt, NextLooked, NextFifo, NextBus, NextSlot, SplitX, Pieces, Last, Assemble;
  }

  /** Every data read of every run, from the port, the fast path or forwarding, whose access memory did not fault, is
    answered without an error and with memory as it stands after exactly the stores older than it. */
  lemma ReadsAreExact(k: Core, ss: seq<Sys>, es: seq<Env>, i: nat)
    requires Run(k, ss, es) && i < |ss|
    requires forall j :: 0 <= j < i ==> Patient(ss[j], es[j])
    requires ss[i].b.q.rd.ack
    ensures ss[i].pend.Some? && ss[i].pend.value.since == |ss[i].sent|
    ensures ss[i].b.q.rd.err <==> ReadFaulted(ss, es, i)
    ensures !ReadFaulted(ss, es, i) ==>
              Answers(k.x, ApplyAll(k.x, ss[i].m0, ss[i].sent), ss[i].pend.value.rd, ss[i].b.q.rd.data)
  {
    ReadsAreAtomic(k, ss, es, i);
    PatientIssue(k, ss, es, i);
    hide Run, Patient, Answers, ReadFaulted;
    var s := ss[i];
    if !ReadFaulted(ss, es, i) {
      var n :| s.pend.value.since <= n <= |s.sent| && Answers(k.x, ApplyAll(k.x, s.m0, s.sent[..n]), s.pend.value.rd, s.b.q.rd.data);
      assert s.sent[..n] == s.sent;
    }
  }

  /** Without that wait, the answer is memory after the older stores and possibly some later ones, never
    a mixture: one point of the program order explains all its bytes. */
  lemma ReadsAreAtomic(k: Core, ss: seq<Sys>, es: seq<Env>, i: nat)
    requires Run(k, ss, es) && i < |ss| && ss[i].b.q.rd.ack
    ensures ss[i].pend.Some? && i > 0
    ensures ss[i].b.q.rd.err <==> ReadFaulted(ss, es, i)
    ensures !ReadFaulted(ss, es, i) ==>
              exists n :: ss[i].pend.value.since <= n <= |ss[i].sent|
                          && Answers(k.x, ApplyAll(k.x, ss[i].m0, ss[i].sent[..n]), ss[i].pend.value.rd, ss[i].b.q.rd.data)
  {
    Always(k, ss, es, i);
    assert i > 0;
    ReadAnswer(k, ss, es, i);
    hide Run, Answers, Lined, MemIs, Accounted, PortReads, Verdicts, ReadFaulted;
  }

  // ---------------------------------------------------------------- instruction fetches

  /** The fetch `f` has been on the port, unanswered, since it was granted in clock `g`, and memory has not changed. */
  ghost predicate Fetching(k: Core, ss: seq<Sys>, es: seq<Env>, g: nat, i: nat, f: Fetch)
    requires g < i < |ss| && i <= |es| + 1 && |ss| == |es| + 1
  {
    && ss[g].b.bus.None? && es[g].fReq == Some(f)
    && InFlight(k, ss[g]) == StoresOf(ss[g].ex)
    && (forall j :: g < j <= i ==>
          && IsFetch(ss[j]) && ss[j].b.bus.value.high && !ss[j].b.q.ft.ack
          && ss[j].b.bus.value.AsRead() == Read(f.addr, if f.long then L else W, f.fc) && ss[j].mem == ss[g].mem)
  }

  lemma FetchClock(k: Core, s: Sys, e: Env)
    requires Lined(k, s) && Legal(k, s, e)
    ensures var s' := NextSys(k, s, e);
            && (IsFetch(s') && !IsFetch(s) ==>
                  && s.b.bus.None? && e.fReq.Some? && s'.b.bus.value.high && !s'.b.q.ft.ack && s'.mem == s.mem
                  && s'.b.bus.value.AsRead() == Read(e.fReq.value.addr, if e.fReq.value.long then L else W, e.fReq.value.fc)
                  && s.b.fifo == [] && WbPart(k, s) == [])
            && (IsFetch(s) && s.b.bus.value.high ==>
                  && s'.mem == s.mem
                  && (s'.b.q.ft.ack <==> e.ack || e.flt)
                  && (if e.ack || e.flt then s'.b.bus.None? else s'.b.bus == s.b.bus))
            && (!IsFetch(s) ==> !s'.b.q.ft.ack)
  {
    hide NextRd, NextLooked, NextFifo, NextSlot, SplitOf, Hits, FastHit, Fwd, Hold, QuietI, WbHold, Assemble, Gather, Answers;
  }

  lemma {:induction false} FetchIsOn(k: Core, ss: seq<Sys>, es: seq<Env>, i: nat) returns (g: nat, f: Fetch)
    requires Run(k, ss, es) && 0 < i < |ss| && IsFetch(ss[i])
    ensures g < i && Fetching(k, ss, es, g, i, f)
  {
    hide Legal, NextSys, ValidCore, Inv, Lined, InFlight, Init;
    Always(k, ss, es, i - 1);
    InvLined(k, ss[i - 1]);
    FetchClock(k, ss[i - 1], es[i - 1]);
    if IsFetch(ss[i - 1]) {
      NotFirst(k, ss, es, i - 1);
      g, f := FetchIsOn(k, ss, es, i - 1);
    } else {
      g, f := i - 1, es[i - 1].fReq.value;
      OnlyEx(k, ss[g]);
    }
  }

  lemma NotFirst(k: Core, ss: seq<Sys>, es: seq<Env>, i: nat)
    requires Run(k, ss, es) && i < |ss| && IsFetch(ss[i])
    ensures i > 0
  {
    hide Legal, NextSys, ValidCore;
  }

  lemma InvLined(k: Core, s: Sys)
    requires Inv(k, s)
    ensures Lined(k, s)
  {
  }

  lemma OnlyEx(k: Core, s: Sys)
    requires s.b.fifo == [] && WbPart(k, s) == []
    ensures InFlight(k, s) == StoresOf(s.ex)
  {
  }

  lemma SettledMem(k: Core, s: Sys)
    requires MemIs(k, s) && s.b.bus.None?
    ensures s.mem == ApplyAll(k.x, s.m0, s.landed)
  {
  }

  /** What memory answered, as the bytes at the fetch's address and after it. */
  lemma FetchData(k: Core, s: Sys, e: Env, f: Fetch)
    requires Lined(k, s) && Legal(k, s, e) && IsFetch(s) && s.b.bus.value.high && (e.ack || e.flt)
    requires s.b.bus.value.AsRead() == Read(f.addr, if f.long then L else W, f.fc)
    ensures var a := NextSys(k, s, e).b.q.ft;
            a.ack && (a.err <==> e.flt) && (!e.flt ==> FetchedBytes(k.x, s.mem, f, a.data))
  {
    hide NextRd, NextLooked, NextFifo, NextSlot, SplitOf, Hits, FastHit, Fwd, Hold, QuietI, WbHold, Assemble, Gather, Phys, NextMem;
    if !e.flt {
      var r := s.b.bus.value.AsRead();
      assert Answers(k.x, s.mem, r, e.rdata);
      FetchLanes(k.x, s.mem, r, e.rdata);
    }
  }

  lemma FetchLanes(x: Pages, m: Mem, r: Read, w: Word)
    requires Answers(x, m, r, w) && r.size != B
    ensures if r.size == L then w.b3 == m[Phys(x, r.fc, r.addr)] && w.b2 == m[Phys(x, r.fc, Plus(r.addr, 1))]
                                && w.b1 == m[Phys(x, r.fc, Plus(r.addr, 2))] && w.b0 == m[Phys(x, r.fc, Plus(r.addr, 3))]
            else w.b1 == m[Phys(x, r.fc, r.addr)] && w.b0 == m[Phys(x, r.fc, Plus(r.addr, 1))]
  {
    assert Plus(r.addr, 0) == r.addr;
    hide Plus, Phys;
    assert Lane(w, Bytes(r.size) - 1) == m[RdPhys(x, r, 0)] && Lane(w, Bytes(r.size) - 2) == m[RdPhys(x, r, 1)];
    if r.size == L { assert Lane(w, 1) == m[RdPhys(x, r, 2)] && Lane(w, 0) == m[RdPhys(x, r, 3)]; }
  }

  /** The four bytes at a longword fetch's address, or the two at a word fetch's over a NOP. */
  ghost predicate FetchedBytes(x: Pages, m: Mem, f: Fetch, w: Word) {
    && w.b3 == m[Phys(x, f.fc, f.addr)] && w.b2 == m[Phys(x, f.fc, Plus(f.addr, 1))]
    && (if f.long then w.b1 == m[Phys(x, f.fc, Plus(f.addr, 2))] && w.b0 == m[Phys(x, f.fc, Plus(f.addr, 3))]
        else w.b1 == 0x4E && w.b0 == 0x71)
  }

  /** Clock `i` answers the fetch `f`, granted in clock `g`. */
  ghost predicate Fetched(k: Core, ss: seq<Sys>, es: seq<Env>, g: nat, i: nat, f: Fetch)
    requires 0 < i < |ss| && |ss| == |es| + 1
  {
    && g < i - 1 && Fetching(k, ss, es, g, i - 1, f)
    && (ss[i].b.q.ft.err <==> es[i - 1].flt)
    && ss[g].mem == ApplyAll(k.x, ss[g].m0, ss[g].landed)
    && (!es[i - 1].flt ==> FetchedBytes(k.x, ss[g].mem, f, ss[i].b.q.ft.data))
  }

  /** Every fetch of every run: it is answered once, when memory answers it, with an access error exactly if memory gave
    one, and otherwise with the bytes at its address as they were when it was granted, after every store that had
    left EX. */
  lemma FetchesAreExact(k: Core, ss: seq<Sys>, es: seq<Env>, i: nat)
    requires Run(k, ss, es) && 0 < i < |ss|
    ensures ss[i].b.q.ft.ack <==> IsFetch(ss[i - 1]) && (es[i - 1].ack || es[i - 1].flt)
    ensures ss[i].b.q.ft.ack ==> exists g: nat, f: Fetch :: Fetched(k, ss, es, g, i, f)
  {
    hide Legal, NextSys, ValidCore, Inv, Lined, InFlight, Init, Fetched;
    Always(k, ss, es, i - 1);
    InvLined(k, ss[i - 1]);
    FetchClock(k, ss[i - 1], es[i - 1]);
    if IsFetch(ss[i - 1]) {
      NotFirst(k, ss, es, i - 1);
      var g, f := FetchIsOn(k, ss, es, i - 1);
      if ss[i].b.q.ft.ack { FetchIsDone(k, ss, es, g, i, f); }
    }
  }

  lemma FetchIsDone(k: Core, ss: seq<Sys>, es: seq<Env>, g: nat, i: nat, f: Fetch)
    requires Run(k, ss, es) && 0 < i < |ss| && g < i - 1 && Fetching(k, ss, es, g, i - 1, f)
    requires es[i - 1].ack || es[i - 1].flt
    ensures Fetched(k, ss, es, g, i, f)
  {
    hide Legal, NextSys, ValidCore, Inv, Lined, InFlight, Init, FetchedBytes;
    Always(k, ss, es, i - 1);
    InvLined(k, ss[i - 1]);
    FetchData(k, ss[i - 1], es[i - 1], f);
    Always(k, ss, es, g);
    InvMem(k, ss[g]);
    SettledMem(k, ss[g]);
  }

  lemma InvMem(k: Core, s: Sys)
    requires Inv(k, s)
    ensures MemIs(k, s)
  {
  }

  /** Each store reaches memory exactly once and in program order; with nothing on the way, memory is
    the initial one with all of them applied. */
  lemma StoresLandInOrder(k: Core, ss: seq<Sys>, es: seq<Env>, i: nat)
    requires Run(k, ss, es) && i < |ss|
    ensures ss[i].sent == ss[i].landed + InFlight(k, ss[i])
    ensures ApplyAll(k.x, ss[i].mem, InFlight(k, ss[i])) == ApplyAll(k.x, ss[i].m0, ss[i].sent)
    ensures InFlight(k, ss[i]) == [] ==> ss[i].mem == ApplyAll(k.x, ss[i].m0, ss[i].sent)
    ensures i > 0 ==> ss[i - 1].landed <= ss[i].landed && ss[i - 1].sent <= ss[i].sent
  {
    Always(k, ss, es, i);
    IdealFromMem(k, ss[i]);
    if i > 0 {
      Always(k, ss, es, i - 1);
      assert ss[i] == NextSys(k, ss[i - 1], es[i - 1]);
      hide Legal, NextMem, Next, ExStall, WbHold, BusIn, QuietI, Hold, Verdicts, PortReads, Inv, Run;
    }
  }

  /** A synchronous store goes out only when no posted one waits, and it is WB's own; a fetch only when
    neither waits: memory then has every store that has left EX. */
  lemma PortPriority(k: Core, ss: seq<Sys>, es: seq<Env>, i: nat)
    requires Run(k, ss, es) && i < |es|
    ensures var s := ss[i];
            && (IsStore(s) && !s.b.bus.value.fifo ==> s.b.fifo == [] && WbStore(s) == Some(s.b.bus.value.AsStore()))
            && (IsStore(s) && s.b.bus.value.fifo ==> s.b.fifo != [] && s.b.fifo[0] == s.b.bus.value.AsStore())
            && (GoIf(k.c, s.b, BusIn(k, s, es[i])) ==>
                  InFlight(k, s) == StoresOf(s.ex) && s.mem == ApplyAll(k.x, s.m0, s.landed))
  {
    Always(k, ss, es, i);
    hide Run, Verdicts, PortReads, AnswerExact, ReadPlace, Hits, Fwd, Hold, FastHit, Crosses, Misal, SplitOf;
  }

  // ---------------------------------------------------------------- progress

  /** Clocks the transfer on the port still takes when memory answers every request. */
  function PortLeft(c: Cfg, s: State): int {
    match s.bus
    case None => 0
    case Some(t) => 2 * (Pieces(SplitX(c, t), t.size) - t.i) + if t.high then 0 else 1
  }

  /** The port never idles over work: it takes a waiting store, read or fetch, unless the read is answered without it; and
    once taken, every clock but one that waits for memory brings the transfer nearer its end. */
  lemma PortMoves(c: Cfg, s: State, i: In)
    requires s.bus.Some? ==> s.bus.value.i < Pieces(SplitX(c, s.bus.value), s.bus.value.size)
    ensures var n := Next(c, s, i);
            if s.bus.None? then
              (|| (c.mix && s.fifo != [])
               || (s.fifo == [] && i.stV && !(c.doneReg && s.q.stDoneQ))
               || (s.fifo == [] && !i.stV && !i.olderSt && s.slot.Some? && !i.rdHold)
               || (i.fReq.Some? && !(c.mix && i.spWait))) ==> (n.bus.Some? && n.bus.value.high) || n.q.rd.ack
            else (s.bus.value.high && !i.ack && !i.flt) || 0 <= PortLeft(c, n) < PortLeft(c, s) <= 9
  {
    hide SplitOf, Search, Assemble, Gather, NextLooked, NextFt, NextFifo;
  }

  /** What goes out on an idle port: the oldest posted store, else WB's own, else the read, with its lock, unless an older
    store is on its way or the read path has it, else a fetch. */
  lemma PortTakes(c: Cfg, s: State, i: In)
    requires s.bus.None? && Next(c, s, i).bus.Some?
    ensures var t := Next(c, s, i).bus.value;
            && t.i == 0 && t.high && (t.lock ==> t.kind == KRead)
            && (if c.mix && s.fifo != [] then t.kind == KStore && t.fifo && t.AsStore() == s.fifo[0]
                else if s.fifo == [] && i.stV && !(c.doneReg && s.q.stDoneQ) then t.kind == KStore && !t.fifo && t.AsStore() == i.st
                else if t.kind == KRead then
                  && s.slot.Some? && t.AsRead() == s.slot.value.rd && t.lock == s.slot.value.lock
                  && s.fifo == [] && !i.stV && !i.olderSt && !i.rdFast && !i.rdFwd
                else
                  && t.kind == KFetch && i.fReq.Some? && !(c.mix && i.spWait)
                  && t.AsRead() == Read(i.fReq.value.addr, if i.fReq.value.long then L else W, i.fReq.value.fc))
  {
    hide NextLooked, NextFt, NextRd, NextFifo, NextSlot;
  }

  /** With no store in EX, in WB, in the ring or on the port, a read that the read path hits is answered in the clock after
    its issue, without the port. */
  lemma HitsAreFast(k: Core, ss: seq<Sys>, es: seq<Env>, i: nat)
    requires Run(k, ss, es) && i + 2 < |ss| && es[i].issue.Some?
    requires ss[i].ex.None? && ss[i].wb.None? && ss[i].b.fifo == [] && !IsStore(ss[i]) && ss[i].b.slot.None?
    requires es[i].dispatch.Some? ==> !es[i].dispatch.value.may
    requires es[i + 1].hit
    ensures ss[i + 2].b.q.rd.ack && !ss[i + 2].b.q.rd.err && ss[i + 2].b.slot.None?
  {
    ReadAnswer(k, ss, es, i + 2);
    Always(k, ss, es, i + 1);
    assert ss[i + 1] == NextSys(k, ss[i], es[i]) && ss[i + 2] == NextSys(k, ss[i + 1], es[i + 1]);
    hide Run, Inv, Legal, ReadFaulted;
    QuietIssue(k, ss[i], es[i]);
    QuietHit(k, ss[i + 1], es[i + 1]);
    InvPlace(k, ss[i + 1]);
  }

  lemma InvPlace(k: Core, s: Sys)
    requires Inv(k, s)
    ensures s.b.slot.Some? ==> !IsRead(s)
  {
  }

  lemma QuietIssue(k: Core, s: Sys, e: Env)
    requires e.issue.Some? && s.ex.None? && s.wb.None? && s.b.fifo == [] && !IsStore(s) && s.b.slot.None?
    requires e.dispatch.Some? ==> !e.dispatch.value.may && e.dispatch.value.store.None?
    ensures var t := NextSys(k, s, e);
            && t.look && t.q1 && t.wb.None? && !OlderStore(t) && ExStore(t).None? && !IsStore(t) && t.b.slot.Some?
            && !(k.c.mix && t.b.q.lk.ovl)
  {
    hide NextRd, NextFt, SplitOf, Search, NextMem, Gather, Fwd, Hold, FastHit;
  }

  lemma QuietHit(k: Core, s: Sys, e: Env)
    requires s.look && s.q1 && s.wb.None? && !OlderStore(s) && ExStore(s).None? && !IsStore(s) && s.b.slot.Some? && e.hit
    requires !(k.c.mix && s.b.q.lk.ovl)
    ensures (FastHit(k, s, e) || Fwd(k, s, e)) && NextSys(k, s, e).b.slot.None?
  {
    hide NextRd, NextFt, SplitOf, Search, NextMem, Gather, NextBus, NextFifo;
  }

  /** A posted store's access error is kept, and nothing else raises the flag. */
  lemma StoreErrorSticks(c: Cfg, s: State, i: In)
    ensures Next(c, s, i).q.stErr <==>
              s.q.stErr || (s.bus.Some? && s.bus.value.high && s.bus.value.kind == KStore && s.bus.value.fifo && i.flt)
  {
    hide SplitX, Last, NextLooked, NextFt, NextRd, NextFifo, NextBus, NextSlot;
  }
}
