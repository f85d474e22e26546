/** The exception and RTE sequences with micro-ops that commit any number of clocks after they are sent: what is waited
  for is enough, so that every register is read only once no micro-op that writes it is on its way. */
module ExceptionPipe {
  import opened Memory
  import opened Exceptions
  import opened ExceptionSteps

  ghost function CommitAll(c: Cpu, q: seq<Uop>): Cpu {
    if q == [] then c else Commit(CommitAll(c, q[..|q| - 1]), Some(q[|q| - 1]))
  }

  lemma {:induction false} CommitJoins(c: Cpu, p: seq<Uop>, q: seq<Uop>)
    ensures CommitAll(c, p + q) == CommitAll(CommitAll(c, p), q)
  {
    hide Commit;
    if q == [] {
      assert p + q == p;
    } else {
      CommitJoins(c, p, q[..|q| - 1]);
      assert (p + q)[..|p + q| - 1] == p + q[..|q| - 1];
    }
  }

  /** A sequence under way, with the registers as committed, and the micro-ops sent and not committed, oldest first. */
  datatype Pipe = Pipe(s: RteRun, q: seq<Uop>)

  /** The micro-op a clock sends. */
  ghost function Sends(s: RteRun, i: In, own: Word): Option<Uop>
    requires ValidRegs(s.r)
  {
    if s.stage.Trapped? && s.r.ph == Exc then EntryClock(s.r, s.c, i).u
    else if s.stage.Popping? && s.r.ph == Ret then RteClock(s.r, s.c, i, own).u
    else None
  }

  function Queued(u: Option<Uop>): seq<Uop> { if u.Some? then [u.value] else [] }

  /** What the sequence sees as older micro-ops is those on their way; `n` of them commit. */
  function Sees(p: Pipe, i: In): In { i.(older := p.q != []) }

  ghost function PipeNext(p: Pipe, i: In, n: nat, own: Word): Pipe
    requires ValidRegs(p.s.r) && n <= |p.q|
  {
    Pipe(RteNext(p.s, Sees(p, i), own).(c := CommitAll(p.s.c, p.q[..n])), p.q[n..] + Queued(Sends(p.s, Sees(p, i), own)))
  }

  /** The same with everything sent committed. */
  ghost function Whole(p: Pipe): RteRun { p.s.(c := CommitAll(p.s.c, p.q)) }

  predicate Pushes(q: seq<Uop>) { forall k :: 0 <= k < |q| ==> q[k].Push? }

  /** While a frame is read nothing is on its way; while one is pushed, only its own longwords are. */
  ghost predicate Settled(p: Pipe) {
    && (p.s.stage.Popping? && p.s.r.ph == Ret ==> p.q == [])
    && (p.s.stage.Trapped? && p.s.r.ph == Exc && p.s.r.step != 5 ==> Pushes(p.q))
  }

  lemma {:induction false} PushesWriteMemory(c: Cpu, q: seq<Uop>)
    requires Pushes(q)
    ensures CommitAll(c, q) == c.(m := CommitAll(c, q).m)
  {
    hide Apply;
    if q != [] { PushesWriteMemory(c, q[..|q| - 1]); }
  }

  lemma NextIs(s: RteRun, i: In, own: Word)
    requires ValidRegs(s.r)
    ensures RteNext(s, i, own).c == Commit(s.c, Sends(s, i, own))
  {
    hide EntryClock, RteClock, FrameStore;
  }

  /** An entry's clock reads the status register and the stack pointers only where they stand. */
  lemma EntryReads(r: Regs, c: Cpu, d: Cpu, i: In)
    requires ValidRegs(r) && r.ph == Exc
    requires if r.step == 5 then i.older || c == d else d == c.(m := d.m)
    ensures EntryClock(r, c, i) == EntryClock(r, d, i)
  {
    hide FrameStore, FinalOf, FrameDone, FrameSize, AddressError;
  }

  lemma SameTurn(p: Pipe, i: In, own: Word)
    requires ValidRegs(p.s.r) && Settled(p)
    ensures var j := Sees(p, i);
            && Sends(p.s, j, own) == Sends(Whole(p), j, own)
            && RteNext(Whole(p), j, own) == RteNext(p.s, j, own).(c := RteNext(Whole(p), j, own).c)
  {
    hide EntryClock, RteClock, Commit, FrameStore;
    if p.s.stage.Trapped? && p.s.r.ph == Exc {
      if p.s.r.step != 5 { PushesWriteMemory(p.s.c, p.q); }
      EntryReads(p.s.r, p.s.c, Whole(p).c, Sees(p, i));
    }
  }

  lemma EntrySends(r: Regs, c: Cpu, i: In)
    requires ValidRegs(r) && r.ph == Exc
    ensures var a := EntryClock(r, c, i);
            a.r.ph == Exc && a.r.step != 5 ==> (a.u.Some? ==> a.u.value.Push?) && (r.step == 5 ==> !i.older && a.u == None)
  {
    hide FrameStore, FinalOf, FrameDone, FrameSize, AddressError, Latched, Down;
  }

  lemma RteSends(r: Regs, c: Cpu, i: In, own: Word)
    requires r.ph == Ret
    ensures var a := RteClock(r, c, i, own);
            && a.r.ph in {Start, Exc, Ret} && (a.r.ph == Ret ==> a.u == None) && (a.r.ph == Exc ==> a.r.step == 5)
  {
    hide SrOf, FrameSize, Plus, FormatErrorAt, OddPcAt;
  }

  lemma StartSettles(r: Regs, c: Cpu, i: In, own: Word)
    requires r.ph == Start || r.ph == Halted
    ensures var q := StartRte(r, c, i, own); (q.ph == Ret ==> !i.older) && (q.ph == Exc ==> q.step == 5)
  {
    hide PrivilegeAt;
  }

  lemma StaysSettled(p: Pipe, i: In, n: nat, own: Word)
    requires ValidRegs(p.s.r) && n <= |p.q| && Settled(p) && (p.s.stage.Popping? ==> p.s.r.ph != Exc)
    ensures Settled(PipeNext(p, i, n, own))
    ensures var t := PipeNext(p, i, n, own).s; t.stage.Popping? ==> t.r.ph != Exc
  {
    hide EntryClock, RteClock, Commit, FrameStore, StartRte;
    var j := Sees(p, i);
    if p.s.stage.Trapped? && p.s.r.ph == Exc {
      EntrySends(p.s.r, p.s.c, j);
    } else if p.s.stage.Popping? && p.s.r.ph == Ret {
      RteSends(p.s.r, p.s.c, j, own);
    } else if p.s.stage.Popping? {
      StartSettles(p.s.r, p.s.c, j, own);
    }
  }

  /** A clock with commits still to come is a clock of the sequence that sees them made. */
  lemma PipeClock(p: Pipe, i: In, n: nat, own: Word)
    requires ValidRegs(p.s.r) && n <= |p.q| && Settled(p) && (p.s.stage.Popping? ==> p.s.r.ph != Exc)
    ensures Whole(PipeNext(p, i, n, own)) == RteNext(Whole(p), Sees(p, i), own)
    ensures Settled(PipeNext(p, i, n, own))
    ensures var t := PipeNext(p, i, n, own).s; t.stage.Popping? ==> t.r.ph != Exc
  {
    hide RteNext, Sends, Commit, Settled, CommitAll;
    var j := Sees(p, i);
    StaysSettled(p, i, n, own);
    SameTurn(p, i, own);
    NextIs(Whole(p), j, own);
    var u := Sends(p.s, j, own);
    CommitJoins(p.s.c, p.q[..n], p.q[n..] + Queued(u));
    assert p.q[..n] + (p.q[n..] + Queued(u)) == p.q + Queued(u);
    CommitJoins(p.s.c, p.q, Queued(u));
    CommitOne(Whole(p).c, u);
  }

  lemma CommitOne(c: Cpu, u: Option<Uop>)
    ensures CommitAll(c, Queued(u)) == Commit(c, u)
  {
    assert CommitAll(c, []) == c;
    if u.Some? { assert Queued(u)[..0] == []; }
  }

  // ---------------------------------------------------------------- every run

  /** After `t` clocks, with as many commits in each as `ns` says, or as there are. */
  ghost function PipeAfter(s: RteRun, own: Word, ins: seq<In>, ns: seq<nat>, t: nat): (p: Pipe)
    requires ValidRegs(s.r) && t <= |ins| == |ns|
    ensures ValidRegs(p.s.r)
  {
    if t == 0 then Pipe(s, [])
    else
      var p := PipeAfter(s, own, ins, ns, t - 1);
      PipeNext(p, ins[t - 1], if ns[t - 1] <= |p.q| then ns[t - 1] else |p.q|, own)
  }

  /** Memory answers an RTE's reads with what it holds once the stores before are in it. */
  ghost predicate PipeHonest(s: RteRun, own: Word, ins: seq<In>, ns: seq<nat>)
    requires ValidRegs(s.r) && |ins| == |ns|
  {
    forall t :: 0 <= t < |ins| ==>
      var p := PipeAfter(s, own, ins, ns, t);
      p.s.stage.Popping? && p.s.r.ph == Ret ==> Honest(Whole(p).c, p.s.r, Sees(p, ins[t]))
  }

  lemma {:induction false} PipeSettled(s: RteRun, own: Word, ins: seq<In>, ns: seq<nat>, t: nat)
    requires ValidRegs(s.r) && t <= |ins| == |ns| && (s.stage.Popping? ==> s.r.ph != Exc)
    ensures var p := PipeAfter(s, own, ins, ns, t); Settled(p) && (p.s.stage.Popping? ==> p.s.r.ph != Exc)
  {
    hide PipeNext, ValidRegs;
    if t > 0 {
      PipeSettled(s, own, ins, ns, t - 1);
      var p := PipeAfter(s, own, ins, ns, t - 1);
      PipeClock(p, ins[t - 1], if ns[t - 1] <= |p.q| then ns[t - 1] else |p.q|, own);
    }
  }

  /** Whatever the delays of the commits: an entry stacks and sets what an entry does. */
  lemma {:induction false} DelayedEntryIsSound(c0: Cpu, e: Ev, r: Regs, own: Word, ins: seq<In>, ns: seq<nat>, t: nat)
    requires !r.rteOdd && t <= |ins| == |ns|
    ensures var p := PipeAfter(RteRun(Begin(r, e), c0, 0, Trapped), own, ins, ns, t);
            p.s.stage.Trapped? && Sound(c0, e, p.s.r, Whole(p).c)
  {
    hide Sound, PipeNext, RteNext, Entering;
    var s := RteRun(Begin(r, e), c0, 0, Trapped);
    if t == 0 {
      BeginEnters(c0, e, r);
      EnteringIsSound(c0, e, Begin(r, e), c0);
    } else {
      DelayedEntryIsSound(c0, e, r, own, ins, ns, t - 1);
      PipeSettled(s, own, ins, ns, t - 1);
      var p := PipeAfter(s, own, ins, ns, t - 1);
      PipeClock(p, ins[t - 1], if ns[t - 1] <= |p.q| then ns[t - 1] else |p.q|, own);
      TrappedClock(c0, e, Whole(p), Sees(p, ins[t - 1]), own);
    }
  }

  lemma TrappedClock(c0: Cpu, e: Ev, s: RteRun, i: In, own: Word)
    requires ValidRegs(s.r) && s.stage.Trapped? && Sound(c0, e, s.r, s.c)
    ensures var t := RteNext(s, i, own); t.stage.Trapped? && Sound(c0, e, t.r, t.c)
  {
    hide Sound, EntryClock, Commit;
    if s.r.ph == Exc { SoundStep(c0, e, s.r, s.c, i); }
  }

  /** Whatever the delays of the commits: an RTE does what its frames say. */
  lemma {:induction false} DelayedRteIsRte(r: Regs, c0: Cpu, own: Word, ins: seq<In>, ns: seq<nat>, t: nat)
    requires ValidRegs(r) && r.ph == Start && !r.rteOdd && t <= |ins| == |ns|
    requires PipeHonest(RteRun(r, c0, 0, Popping), own, ins, ns)
    ensures RteSound(c0, own, Whole(PipeAfter(RteRun(r, c0, 0, Popping), own, ins, ns, t)))
  {
    hide Sound, RteFrame, Returning, PipeNext, RteNext, Honest, Trap, ValidRegs;
    var s := RteRun(r, c0, 0, Popping);
    if t > 0 {
      DelayedRteIsRte(r, c0, own, ins, ns, t - 1);
      PipeSettled(s, own, ins, ns, t - 1);
      var p := PipeAfter(s, own, ins, ns, t - 1);
      PipeClock(p, ins[t - 1], if ns[t - 1] <= |p.q| then ns[t - 1] else |p.q|, own);
      RteStep(c0, own, Whole(p), Sees(p, ins[t - 1]));
    }
  }
}
