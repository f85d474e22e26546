/** Under every stall and answer timing, the MOVEM sequencer sends the instruction's micro-ops: each listed register
  once, in order, at its address, and the base register's write with the last. */
module MovemProof {
  import opened Memory
  import opened Movem

  // ---------------------------------------------------------------- the list

  lemma {:induction false} ListedMeans(m: Mask)
    ensures forall r: Reg :: r in Listed(m) <==> m[r]
    ensures forall j, k :: 0 <= j < k < |Listed(m)| ==> Listed(m)[j] < Listed(m)[k]
    decreases Count(m)
  {
    if true in m {
      var b, t := Lsb(m), Clear(m, Lsb(m));
      CountDrops(m, b);
      ListedMeans(t);
      assert Listed(m) == [b] + Listed(t);
      forall k | 0 <= k < |Listed(t)| ensures b < Listed(t)[k] {
        assert Listed(t)[k] in Listed(t);
      }
    }
  }

  lemma ListedStep(m: Mask, l: seq<Reg>, c: nat)
    requires c <= |l| && Listed(m) == l[c..]
    ensures true in m <==> c < |l|
    ensures c < |l| ==> Lsb(m) == l[c] && Listed(Clear(m, Lsb(m))) == l[c + 1..] && (One(m) <==> c + 1 == |l|)
  {
    hide Lsb;
    if true in m {
      CountDrops(m, Lsb(m));
      assert l[c..] == [Lsb(m)] + Listed(Clear(m, Lsb(m)));
      assert l[c + 1..] == l[c..][1..];
    }
  }

  lemma Ascending(l: seq<Reg>, p: nat, d: nat)
    requires p < |l| && d < |l| && l[p] == l[d] && forall j, k :: 0 <= j < k < |l| ==> l[j] < l[k]
    ensures p == d
  {
  }

  lemma PlaceIs(i: Instr, d: nat)
    requires d < |Listed(i.list)|
    ensures Place(Listed(i.list), Listed(i.list)[d]) == d
  {
    ListedMeans(i.list);
    hide Listed;
    var l := Listed(i.list);
    var p := Place(l, l[d]);
    Ascending(l, p, d);
  }

  // ---------------------------------------------------------------- the invariant

  /** What a run is about: the instruction, its EA, and the registers and memory it finds. */
  datatype Job = Job(i: Instr, mt: bool, ea: Addr, rf: RegFile, m: Mem)

  ghost function Value(j: Job, x: Pages, k: nat): Word { MemValue(j.i, x, j.m, AddrOf(j.i, j.ea, k)) }

  ghost predicate Sent(j: Job, x: Pages, out: seq<Uop>) {
    forall k :: 0 <= k < |out| ==> out[k] == PlanAt(j.i, j.mt, x, j.rf, j.m, j.ea, k)
  }

  /** `c` reads issued and the last of them, if its micro-op has not gone, outstanding or in the buffer. */
  ghost predicate Loading(j: Job, x: Pages, r: Seq, out: seq<Uop>, c: nat) {
    var l, d := Listed(j.i.list), |out|;
    && j.i.ld && !r.empty && !r.tail && d < |l| && d <= c <= d + 1 && c <= |l|
    && Listed(r.mask) == l[c..] && r.k == Lsb(r.mask) && r.addr == AddrOf(j.i, j.ea, c)
    && (c == d + 1 <==> r.pend || r.have) && !(r.pend && r.have)
    && (r.pend ==> r.rreg == l[d] && (r.rlast <==> d + 1 == |l|) && r.rda == AddrOf(j.i, j.ea, d))
    && (r.have ==> r.hreg == l[d] && (r.hlast <==> d + 1 == |l|) && Loaded(j.i, r.hdata) == Value(j, x, d))
    && (j.i.base.Some? ==> (r.bv <==> j.i.base.value in l[..d]))
    && (j.i.base.None? ==> !r.bv)
    && (r.bv ==> r.bval == Value(j, x, Place(l, j.i.base.value)))
  }

  ghost predicate Storing(j: Job, r: Seq, out: seq<Uop>) {
    var l, d := Listed(j.i.list), |out|;
    && !j.i.ld && !r.empty && !r.have && !r.bv && l != [] && d <= |l|
    && Listed(r.mask) == l[d..] && r.k == Lsb(r.mask) && r.addr == AddrOf(j.i, j.ea, d)
    && (r.tail <==> d == |l|) && (r.tail ==> j.mt && j.i.mode.Pre?)
  }

  ghost predicate NoList(j: Job, r: Seq, out: seq<Uop>) {
    Listed(j.i.list) == [] && r.empty && !r.tail && !r.bv && !r.pend && !r.have && out == [] && true !in r.mask
  }

  ghost predicate Going(j: Job, x: Pages, r: Seq, out: seq<Uop>) {
    && ValidInstr(j.i) && Sent(j, x, out)
    && if r.active then (exists c: nat :: Loading(j, x, r, out, c)) || Storing(j, r, out) || NoList(j, r, out)
       else |out| == PlanLength(j.i, j.mt)
  }

  /** The read port answers the outstanding read from memory, and the register file gives the register to store once EX
    is not about to write it. */
  ghost predicate Honest(j: Job, x: Pages, r: Seq, e: In) {
    && (r.pend && e.ack ==> Answers(x, j.m, Read(r.rda, SizeOf(j.i), j.i.fc), e.data))
    && (!j.i.ld && !e.sblk ==> e.reg == j.rf[RegOf(j.i, r.k)])
  }

  // ---------------------------------------------------------------- addresses

  lemma NextAddr(i: Instr, ea: Addr, k: nat)
    ensures AddrOf(i, ea, k + 1) == if i.mode.Pre? then Minus(AddrOf(i, ea, k), Step(i)) else Plus(AddrOf(i, ea, k), Step(i))
    ensures AddrOf(i, ea, 0) == ea
  {
    hide Plus, Minus, Step;
    var s := Step(i);
    assert (k + 1) * s == k * s + s && 0 * s == 0;
    MinusMinus(ea, k * s, s);
    PlusPlus(ea, k * s, s);
    NoMove(ea);
  }

  lemma NoMove(a: Addr)
    ensures Plus(a, 0) == a && Minus(a, 0) == a
  {
  }

  lemma BackAddr(i: Instr, ea: Addr, k: nat)
    requires k > 0 && i.mode.Pre?
    ensures Plus(AddrOf(i, ea, k), Step(i)) == AddrOf(i, ea, k - 1)
  {
    NextAddr(i, ea, k - 1);
    MinusPlus(AddrOf(i, ea, k - 1), Step(i));
    hide AddrOf, Plus, Minus;
  }

  lemma AnswerIs(j: Job, x: Pages, a: Addr, w: Word)
    requires Answers(x, j.m, Read(a, SizeOf(j.i), j.i.fc), w)
    ensures Loaded(j.i, w) == MemValue(j.i, x, j.m, a)
  {
    var r := Read(a, SizeOf(j.i), j.i.fc);
    assert Lane(w, Bytes(r.size) - 1) == j.m[RdPhys(x, r, 0)] && Lane(w, Bytes(r.size) - 2) == j.m[RdPhys(x, r, 1)];
    if !j.i.word { assert Lane(w, 1) == j.m[RdPhys(x, r, 2)] && Lane(w, 0) == j.m[RdPhys(x, r, 3)]; }
    hide Phys;
  }

  // ---------------------------------------------------------------- loads

  /** The register and value of the micro-op that goes, or goes into the buffer, are the plan's next. */
  lemma LoadValue(j: Job, x: Pages, r: Seq, out: seq<Uop>, c: nat, e: In)
    requires Loading(j, x, r, out, c) && Honest(j, x, r, e)
    ensures var s := Decide(j.i, j.mt, r, e);
            && (s.disp ==> DReg(j.i, r, s) == Listed(j.i.list)[|out|] && c == |out| + 1
                           && Loaded(j.i, DVal(j.i, r, s, e)) == Value(j, x, |out|)
                           && (s.fin <==> c == |Listed(j.i.list)|) && !s.empty && !s.tailu && !s.tail)
            && (s.toBuf ==> r.pend && e.ack && !r.have && !s.disp && !s.issue && Loaded(j.i, e.data) == Value(j, x, |out|))
            && (!s.disp ==> !s.fin && !s.fromBuf && !s.tail)
            && (s.issue ==> c < |Listed(j.i.list)| && !r.have && (c == |out| || s.disp))
            && (s.disp && r.have <==> s.fromBuf) && (s.disp && !r.have ==> r.pend && e.ack)
            && (!s.disp && !s.toBuf && r.pend ==> !e.ack)
  {
    hide Listed, MemValue, Loaded, Lsb, One, Answers;
    if r.pend && e.ack { AnswerIs(j, x, r.rda, e.data); }
    ListedStep(r.mask, Listed(j.i.list), c);
  }

  lemma LoadSends(j: Job, x: Pages, r: Seq, out: seq<Uop>, c: nat, e: In)
    requires ValidInstr(j.i) && Loading(j, x, r, out, c) && Honest(j, x, r, e)
    ensures var s := Decide(j.i, j.mt, r, e);
            s.disp ==> UopOf(j.i, r, s, e) == PlanAt(j.i, j.mt, x, j.rf, j.m, j.ea, |out|)
  {
    var s := Decide(j.i, j.mt, r, e);
    if s.disp {
      LoadValue(j, x, r, out, c, e);
      hide Decide, DReg, DVal, Loaded, MemValue, Listed, Honest;
      var l, d := Listed(j.i.list), |out|;
      if s.fin && j.i.base.Some? { BaseAtEnd(j, x, r, out, c, s, e); }
    }
  }

  lemma BaseAtEnd(j: Job, x: Pages, r: Seq, out: seq<Uop>, c: nat, s: Steps, e: In)
    requires ValidInstr(j.i) && Loading(j, x, r, out, c) && j.i.base.Some? && c == |out| + 1 == |Listed(j.i.list)|
    requires s.disp && !s.empty && DReg(j.i, r, s) == Listed(j.i.list)[|out|]
    requires Loaded(j.i, DVal(j.i, r, s, e)) == Value(j, x, |out|)
    ensures var b := BaseEnd(j.i, x, j.m, j.ea);
            if j.i.mode.Post? || r.bv || BaseNow(j.i, r, s) then b == Some(Update(j.i, r, s, e)) else b == None
  {
    hide DReg, DVal, Loaded, MemValue, Listed;
    var l, b := Listed(j.i.list), j.i.base.value;
    ListedIn(j.i.list, b);
    assert l == l[..|out|] + [l[|out|]];
    if l[|out|] == b { PlaceIs(j.i, |out|); }
  }

  lemma ListedIn(m: Mask, r: Reg)
    ensures r in Listed(m) <==> m[r]
  {
    ListedMeans(m);
  }

  lemma MoveIs(i: Instr, r: Seq, ea: Addr, l: seq<Reg>, c: nat)
    requires c < |l| && Listed(r.mask) == l[c..] && r.k == Lsb(r.mask) && r.addr == AddrOf(i, ea, c)
    ensures var n := Move(i, r);
            && Listed(n.mask) == l[c + 1..] && n.k == Lsb(n.mask) && n.addr == AddrOf(i, ea, c + 1)
            && r.k == l[c] && (One(r.mask) <==> c + 1 == |l|)
            && n == r.(mask := n.mask, k := n.k, addr := n.addr)
  {
    hide Lsb, Listed, One, Plus, Minus, AddrOf;
    ListedStep(r.mask, l, c);
    NextAddr(i, ea, c);
  }

  /** A clock of a load: what is issued, buffered and sent. */
  lemma LoadKeeps(j: Job, x: Pages, r: Seq, out: seq<Uop>, c: nat, e: In)
    requires ValidInstr(j.i) && Loading(j, x, r, out, c) && Honest(j, x, r, e) && r.active
    ensures var s, n := Decide(j.i, j.mt, r, e), NextSeq(j.i, j.mt, r, e);
            var out' := if s.disp then out + [UopOf(j.i, r, s, e)] else out;
            if s.fin then !n.active && |out'| == |Listed(j.i.list)|
            else n.active && Loading(j, x, n, out', if s.issue then c + 1 else c)
  {
    hide Lsb, Listed, One, Loaded, MemValue, Decide, UopOf, DVal, DReg, Honest, Move, Step, Place, AddrOf;
    var s, l := Decide(j.i, j.mt, r, e), Listed(j.i.list);
    LoadValue(j, x, r, out, c, e);
    if s.issue {
      MoveIs(j.i, r.(pend := true, rda := r.addr, rreg := RegOf(j.i, r.k), rlast := One(r.mask)), j.ea, l, c);
    }
    if s.disp {
      var u := UopOf(j.i, r, s, e);
      assert l[..|out| + 1] == l[..|out|] + [l[|out|]];
      PlaceIs(j.i, |out|);
    }
  }

  // ---------------------------------------------------------------- stores

  lemma StoreSends(j: Job, x: Pages, r: Seq, out: seq<Uop>, e: In)
    requires ValidInstr(j.i) && Storing(j, r, out) && Honest(j, x, r, e)
    ensures var s := Decide(j.i, j.mt, r, e);
            s.disp ==> UopOf(j.i, r, s, e) == PlanAt(j.i, j.mt, x, j.rf, j.m, j.ea, |out|)
                       && (s.fin <==> |out| + 1 == PlanLength(j.i, j.mt))
  {
    hide Lsb, Listed, One, Loaded, MemValue, AddrOf, Place, Answers;
    var l, d := Listed(j.i.list), |out|;
    ListedStep(r.mask, l, d);
    if r.tail { BackAddr(j.i, j.ea, d); }
  }

  lemma StoreKeeps(j: Job, r: Seq, out: seq<Uop>, e: In)
    requires ValidInstr(j.i) && Storing(j, r, out) && r.active
    ensures var s, n := Decide(j.i, j.mt, r, e), NextSeq(j.i, j.mt, r, e);
            var out' := if s.disp then out + [UopOf(j.i, r, s, e)] else out;
            if s.fin then !n.active else n.active && Storing(j, n, out')
  {
    hide Lsb, Listed, One, Loaded, MemValue, UopOf, DVal, AddrOf, Move;
    var s, l := Decide(j.i, j.mt, r, e), Listed(j.i.list);
    ListedStep(r.mask, l, |out|);
    if s.disp && !r.tail {
      MoveIs(j.i, r.(pend := r.pend && !e.ack), j.ea, l, |out|);
    }
  }

  // ---------------------------------------------------------------- every run

  /** The sequencer and the micro-ops it has sent, after `t` clocks; it rests once it has finished. */
  ghost function After(j: Job, r: Seq, es: seq<In>, t: nat): (Seq, seq<Uop>)
    requires t <= |es|
  {
    if t == 0 then (r, [])
    else
      var (q, out) := After(j, r, es, t - 1);
      if !q.active then (q, out)
      else
        var s := Decide(j.i, j.mt, q, es[t - 1]);
        (NextSeq(j.i, j.mt, q, es[t - 1]), if s.disp then out + [UopOf(j.i, q, s, es[t - 1])] else out)
  }

  ghost predicate AllHonest(j: Job, x: Pages, r: Seq, es: seq<In>) {
    forall t :: 0 <= t < |es| ==> Honest(j, x, After(j, r, es, t).0, es[t])
  }

  lemma StartGoes(j: Job, x: Pages, r: Seq)
    requires ValidInstr(j.i)
    ensures Going(j, x, StartSeq(r, j.i, j.ea), [])
  {
    hide Listed, Lsb, MemValue, AddrOf;
    var q, l := StartSeq(r, j.i, j.ea), Listed(j.i.list);
    NextAddr(j.i, j.ea, 0);
    assert l[0..] == l;
    ListedStep(j.i.list, l, 0);
    if l != [] && j.i.ld { assert Loading(j, x, q, [], 0); }
  }

  lemma ClockGoes(j: Job, x: Pages, r: Seq, out: seq<Uop>, e: In)
    requires Going(j, x, r, out) && Honest(j, x, r, e) && r.active
    ensures var s := Decide(j.i, j.mt, r, e);
            Going(j, x, NextSeq(j.i, j.mt, r, e), if s.disp then out + [UopOf(j.i, r, s, e)] else out)
  {
    hide Listed, Loading, Storing, NoList, Decide, NextSeq, UopOf, PlanAt, Honest, PlanLength;
    if Storing(j, r, out) {
      StoreSends(j, x, r, out, e);
      StoreKeeps(j, r, out, e);
      FinSends(j.i, j.mt, r, e);
    } else if NoList(j, r, out) {
      NoListGoes(j, x, r, out, e);
    } else {
      var c: nat :| Loading(j, x, r, out, c);
      LoadSends(j, x, r, out, c, e);
      LoadKeeps(j, x, r, out, c, e);
      FinSends(j.i, j.mt, r, e);
      LoadPlan(j, x, r, out, c);
    }
  }

  lemma FinSends(i: Instr, mt: bool, r: Seq, e: In)
    ensures Decide(i, mt, r, e).fin ==> Decide(i, mt, r, e).disp
  {
  }

  lemma LoadPlan(j: Job, x: Pages, r: Seq, out: seq<Uop>, c: nat)
    requires ValidInstr(j.i) && Loading(j, x, r, out, c)
    ensures PlanLength(j.i, j.mt) == |Listed(j.i.list)|
  {
  }

  lemma NoListGoes(j: Job, x: Pages, r: Seq, out: seq<Uop>, e: In)
    requires ValidInstr(j.i) && NoList(j, r, out) && r.active
    ensures var s, n := Decide(j.i, j.mt, r, e), NextSeq(j.i, j.mt, r, e);
            var out' := if s.disp then out + [UopOf(j.i, r, s, e)] else out;
            && Sent(j, x, out')
            && if s.fin then !n.active && |out'| == PlanLength(j.i, j.mt) else n.active && NoList(j, n, out')
  {
    hide Lsb, MemValue, AddrOf, One;
  }

  /** Whatever the stalls, the read latencies and the register hazards: at every clock what has gone out is the start
    of the plan, and when the sequencer finishes it is the whole of it. */
  lemma {:induction false} SendsThePlan(j: Job, x: Pages, r: Seq, es: seq<In>, t: nat)
    requires ValidInstr(j.i) && t <= |es| && AllHonest(j, x, StartSeq(r, j.i, j.ea), es)
    ensures var (q, out) := After(j, StartSeq(r, j.i, j.ea), es, t);
            && (forall k :: 0 <= k < |out| ==> out[k] == PlanAt(j.i, j.mt, x, j.rf, j.m, j.ea, k))
            && (if q.active then |out| < PlanLength(j.i, j.mt) else |out| == PlanLength(j.i, j.mt))
  {
    hide PlanAt, PlanLength, StartSeq, Honest, NextSeq, Decide, UopOf;
    RunGoes(j, x, r, es, t);
    var (q, out) := After(j, StartSeq(r, j.i, j.ea), es, t);
    GoingShort(j, x, q, out);
  }

  lemma {:induction false} RunGoes(j: Job, x: Pages, r: Seq, es: seq<In>, t: nat)
    requires ValidInstr(j.i) && t <= |es| && AllHonest(j, x, StartSeq(r, j.i, j.ea), es)
    ensures var (q, out) := After(j, StartSeq(r, j.i, j.ea), es, t); Going(j, x, q, out)
  {
    hide Going, StartSeq, Honest, NextSeq, Decide, UopOf;
    if t == 0 {
      StartGoes(j, x, r);
    } else {
      RunGoes(j, x, r, es, t - 1);
      var (q, out) := After(j, StartSeq(r, j.i, j.ea), es, t - 1);
      if q.active { ClockGoes(j, x, q, out, es[t - 1]); }
    }
  }

  lemma GoingShort(j: Job, x: Pages, r: Seq, out: seq<Uop>)
    requires Going(j, x, r, out)
    ensures Sent(j, x, out) && if r.active then |out| < PlanLength(j.i, j.mt) else |out| == PlanLength(j.i, j.mt)
  {
    hide Listed, MemValue, PlanAt;
  }

  // ---------------------------------------------------------------- progress

  /** Transfers still to go, a read counting as half. */
  ghost function Left(j: Job, r: Seq, out: seq<Uop>): int {
    2 * (PlanLength(j.i, j.mt) - |out|) - if r.pend || r.have then 1 else 0
  }

  /** A clock in which EX takes what there is, no register waits, and an outstanding read is answered, moves the
    instruction on. */
  lemma ClockMoves(j: Job, x: Pages, r: Seq, out: seq<Uop>, e: In)
    requires Going(j, x, r, out) && r.active && !e.stall && !e.sblk && (r.pend ==> e.ack) && (!j.i.ld ==> !r.pend)
    ensures var s, n := Decide(j.i, j.mt, r, e), NextSeq(j.i, j.mt, r, e);
            Left(j, n, if s.disp then out + [UopOf(j.i, r, s, e)] else out) < Left(j, r, out)
  {
    hide UopOf, PlanLength, DVal, Loaded, MemValue, Lsb, One, Sent;
    if !r.empty && !Storing(j, r, out) {
      var c: nat :| Loading(j, x, r, out, c);
      ListedStep(r.mask, Listed(j.i.list), c);
    } else if !r.empty {
      ListedStep(r.mask, Listed(j.i.list), |out|);
    }
  }
}
