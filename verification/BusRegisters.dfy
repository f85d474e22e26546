/** The bus controller's registers and its clocked block: the posted-store ring, the read slot,
  the split counters and the port, updated each enabled clock, proved against `BusControl.Next`. */
module BusRegisters {
  import opened Memory
  import opened BusControl

  /** Slot of the ring `i` places after `p` (pointers of width log2 n). */
  function Idx(p: nat, i: nat, n: nat): (k: nat)
    requires p < n && i <= n
    ensures k < n
  {
    if p + i < n then p + i else p + i - n
  }

  /** mem_*: the memory port's request. */
  datatype Port = Port(req: bool, write: bool, instr: bool, size: Size, addr: Addr, wdata: Word, fc: FC, lock: bool)

  /** sp_*: the split transfer in progress. */
  datatype SplitRegs = SplitRegs(on: bool, w: bool, i: nat, s: Size, a: Addr, d: Word, acc: Word)

  /** The split registers and the port agree on the piece in progress. */
  ghost predicate PortOk(c: Cfg, kind: Kind, mem: Port, sp: SplitRegs) {
    && (sp.on ==>
          && kind != KFetch && SplitOf(c, sp.a, sp.s) != Whole && (sp.w <==> SplitOf(c, sp.a, sp.s) == Words)
          && sp.i < Pieces(SplitOf(c, sp.a, sp.s), sp.s)
          && (mem.req ==>
                && mem.size == PieceSize(SplitOf(c, sp.a, sp.s), sp.s)
                && mem.addr == PieceAddr(SplitOf(c, sp.a, sp.s), sp.a, sp.i)
                && (kind == KStore ==> mem.wdata == PieceData(SplitOf(c, sp.a, sp.s), sp.d, sp.s, sp.i))))
    && (!sp.on && mem.req && kind != KFetch ==> SplitOf(c, mem.addr, mem.size) == Whole)
    && (mem.req && kind == KFetch ==> mem.size != B)
    && (mem.req || sp.on ==> (mem.write <==> kind == KStore) && (mem.instr <==> kind == KFetch))
    && (kind != KRead && (mem.req || sp.on) ==> !mem.lock)
  }

  /** The transfer those registers stand for. */
  function BusOf(kind: Kind, kFifo: bool, mem: Port, sp: SplitRegs): Option<Xfer> {
    if !mem.req && !sp.on then None
    else Some(Xfer(kind, if sp.on then sp.a else mem.addr, if sp.on then sp.s else mem.size, mem.fc,
                   if kind == KStore then if sp.on then sp.d else mem.wdata else ZERO,
                   kind == KStore && kFifo, mem.lock, if sp.on then sp.i else 0, mem.req,
                   if sp.on && kind == KRead then sp.acc else ZERO))
  }

  /** The transfer ends with this answer. */
  predicate SpFin(sp: SplitRegs, flt: bool) {
    !sp.on || flt || sp.i == (if sp.w || sp.s != L then 1 else 3)
  }

  lemma SpFinIsLast(c: Cfg, kind: Kind, kFifo: bool, mem: Port, sp: SplitRegs, flt: bool)
    requires PortOk(c, kind, mem, sp) && mem.req
    ensures SpFin(sp, flt) <==> flt || Last(c, BusOf(kind, kFifo, mem, sp).value)
  {
    hide Crosses, Misal;
  }

  /** What the read in progress answers with. */
  function SpRd(sp: SplitRegs, rdata: Word): Word {
    if !sp.on then rdata
    else if sp.w then Word(sp.acc.b1, sp.acc.b0, rdata.b1, rdata.b0)
    else if sp.s == L then Word(sp.acc.b2, sp.acc.b1, sp.acc.b0, rdata.b0)
    else Word(0, 0, sp.acc.b0, rdata.b0)
  }

  /** The posted-store ring: sb_*, with its valid flags and each entry's longwords. */
  class StoreRing {
    const n: nat
    const sb: array<Store>
    const vld: array<bool>
    const lo: array<nat>
    const hi: array<nat>
    var rp: nat
    var wp: nat
    var cnt: nat
    ghost var Contents: seq<Store>

    ghost const Repr: set<object>

    /** The valid flags are exactly the `cnt` slots from `rp`, and those hold the contents. */
    ghost predicate Valid()
      reads this, Repr
    {
      && Repr == {this, sb, vld, lo, hi} && lo != hi
      && n >= 2 && sb.Length == vld.Length == lo.Length == hi.Length == n
      && rp < n && wp < n && cnt <= n && wp == Idx(rp, cnt, n) && |Contents| == cnt
      && (forall i :: 0 <= i < cnt ==> vld[Idx(rp, i, n)] && sb[Idx(rp, i, n)] == Contents[i])
      && (forall i :: cnt <= i < n ==> !vld[Idx(rp, i, n)])
      && (forall k :: 0 <= k < n && vld[k] ==>
            lo[k] == LwFirst(sb[k].addr) && hi[k] == LwLast(sb[k].addr, sb[k].size))
    }

    constructor (n: nat)
      requires n >= 2
      ensures Valid() && this.n == n && Contents == [] && fresh(Repr)
    {
      this.n := n;
      sb := new Store[n](_ => Store(0, L, ZERO, 5));
      vld := new bool[n](_ => false);
      lo, hi := new nat[n](_ => 0), new nat[n](_ => 0);
      rp, wp, cnt, Contents := 0, 0, 0, [];
      Repr := {this, sb, vld, lo, hi};
    }

    /** The overlap verdict, over every ring slot. */
    method LookupHit(r: Read) returns (hit: bool)
      requires Valid()
      ensures hit == LkHit(Contents, r)
    {
      hit := false;
      ghost var f := Contents;
      var a, b := LwFirst(r.addr), LwLast(r.addr, r.size);
      for q := 0 to n
        invariant hit <==> exists k :: 0 <= k < q && vld[k] && Lwo(sb[k].addr, sb[k].size, r.addr, r.size)
      {
        if vld[q] && (lo[q] == a || lo[q] == b || hi[q] == a || hi[q] == b) { hit := true; }
      }
      if hit {
        var k :| 0 <= k < n && vld[k] && Lwo(sb[k].addr, sb[k].size, r.addr, r.size);
        ghost var j := if k >= rp then k - rp else k + n - rp;
        assert Idx(rp, j, n) == k;
        assert f[j] == sb[k];
      } else {
        forall k | 0 <= k < |f| ensures !Lwo(f[k].addr, f[k].size, r.addr, r.size) {
          assert vld[Idx(rp, k, n)];
        }
      }
    }

    /** The forwarding search over the ring, newest entry first. */
    method Search(r: Read) returns (v: Verdict)
      requires Valid()
      ensures v == AskFifo(Contents, r)
    {
      v := Miss;
      var done := false;
      ghost var f := Contents;
      assert f[..cnt] == f;
      for q := 1 to n + 1
        invariant !done ==> v == Miss && AskFifo(f, r) == AskFifo(f[..if q - 1 <= cnt then cnt - (q - 1) else 0], r)
        invariant done ==> v == AskFifo(f, r)
      {
        var k := if wp >= q then wp - q else wp + n - q;
        RingBack(q);
        if q <= cnt && !done {
          ghost var g := f[..cnt - (q - 1)];
          assert g[|g| - 1] == sb[k] && g[..|g| - 1] == f[..cnt - q];
        }
        if !done && vld[k] {
          v := Ask(sb[k], true, r);
          done := v != Miss;
        }
      }
    }

    /** The slot `q` places before the write pointer is the q-th newest store, or is empty. */
    lemma RingBack(q: nat)
      requires Valid() && 1 <= q <= n
      ensures var k := if wp >= q then wp - q else wp + n - q;
              if q <= cnt then vld[k] && Contents[cnt - q] == sb[k] else !vld[k]
    {
      if q <= cnt {
        assert vld[Idx(rp, cnt - q, n)];
      } else {
        assert !vld[Idx(rp, cnt + n - q, n)];
      }
    }

    /** A store enters the ring. */
    method Push(st: Store)
      requires Valid() && |Contents| < n
      modifies Repr
      ensures Valid() && Contents == old(Contents) + [st]
    {
      assert wp == Idx(rp, cnt, n);
      assert forall i :: 0 <= i < cnt ==> Idx(rp, i, n) != wp;
      assert forall i :: cnt < i < n ==> Idx(rp, i, n) != wp;
      vld[wp], lo[wp], hi[wp] := true, LwFirst(st.addr), LwLast(st.addr, st.size);
      sb[wp] := st;
      wp := if wp + 1 == n then 0 else wp + 1;
      cnt, Contents := cnt + 1, Contents + [st];
    }

    /** The oldest store leaves it. */
    method Pop()
      requires Valid() && Contents != []
      modifies Repr
      ensures Valid() && Contents == old(Contents)[1..]
    {
      ghost var p0, c0 := rp, cnt;
      assert forall i :: 0 < i < n ==> Idx(rp, i, n) != rp;
      vld[rp] := false;
      rp := if rp + 1 == n then 0 else rp + 1;
      cnt, Contents := cnt - 1, Contents[1..];
      assert forall i :: 0 <= i < n - 1 ==> Idx(rp, i, n) == Idx(p0, i + 1, n);
      assert Idx(rp, n - 1, n) == p0;
    }

    /** Both at one edge. */
    method Turn(pop: bool, push: bool, st: Store)
      requires Valid() && (pop ==> Contents != []) && (push ==> |Contents| < n)
      modifies Repr
      ensures Valid()
      ensures Contents == (if pop then old(Contents)[1..] else old(Contents)) + (if push then [st] else [])
    {
      if pop { Pop(); }
      if push { Push(st); }
    }

    method Oldest() returns (s: Store)
      requires Valid() && Contents != []
      ensures s == Contents[0]
    {
      s := sb[rp];
    }
  }

  class Bcu {
    const c: Cfg
    const ring: StoreRing
    var slot: Option<Slot>
    // the port
    var kind: Kind
    var kFifo: bool
    var mem: Port
    var sp: SplitRegs
    // registered answers and verdicts
    var q: Regs

    ghost predicate Valid()
      reads this, ring, ring.Repr
    {
      && ValidCfg(c) && ring.Valid() && ring.n == c.n && this !in ring.Repr
      && PortOk(c, kind, mem, sp)
      && (kind == KStore && kFifo && (mem.req || sp.on) ==> ring.Contents != [])
    }

    ghost function View(): State
      reads this, ring
    {
      State(ring.Contents, slot, BusOf(kind, kFifo, mem, sp), q)
    }

    constructor (c: Cfg)
      requires ValidCfg(c)
      ensures Valid() && this.c == c && View() == RESET && fresh(ring.Repr)
    {
      this.c := c;
      ring := new StoreRing(c.n);
      slot, kind, kFifo := None, KStore, false;
      mem := Port(false, false, false, L, 0, ZERO, 5, false);
      sp := SplitRegs(false, false, 0, L, 0, ZERO, ZERO);
      q := RESET.q;
    }

    /** The address, size and data of a store go on the port, or its first piece's do. */
    method StartStore(s: Store, fromRing: bool)
      requires !mem.req && !sp.on
      modifies this`kind, this`kFifo, this`mem, this`sp
      ensures PortOk(c, kind, mem, sp) && BusOf(kind, kFifo, mem, sp) == Some(StoreXfer(s, fromRing))
    {
      hide Crosses, Misal, WSplit, SplitOf;
      kind, kFifo := KStore, fromRing;
      var p := SplitOf(c, s.addr, s.size);
      if p != Whole {
        sp := sp.(on := true, w := p == Words, i := 0, s := s.size, a := s.addr, d := s.data);
        mem := Port(true, true, false, if sp.w then W else B, s.addr, PieceData(p, s.data, s.size, 0), s.fc, false);
      } else {
        mem := Port(true, true, false, s.size, s.addr, s.data, s.fc, false);
      }
    }

    method StartRead(dq: Slot)
      requires !mem.req && !sp.on
      modifies this`kind, this`mem, this`sp
      ensures PortOk(c, kind, mem, sp) && BusOf(kind, kFifo, mem, sp) == Some(ReadXfer(dq))
    {
      hide Crosses, Misal, WSplit, SplitOf;
      var r := dq.rd;
      kind := KRead;
      var p := SplitOf(c, r.addr, r.size);
      if p != Whole {
        sp := sp.(on := true, w := p == Words, i := 0, s := r.size, a := r.addr, acc := ZERO);
        mem := mem.(req := true, write := false, instr := false, addr := r.addr, fc := r.fc, lock := dq.lock,
                    size := if sp.w then W else B);
      } else {
        mem := mem.(req := true, write := false, instr := false, addr := r.addr, fc := r.fc, lock := dq.lock,
                    size := r.size);
      }
    }

    method StartFetch(f: Fetch)
      requires !mem.req && !sp.on
      modifies this`kind, this`mem
      ensures PortOk(c, kind, mem, sp) && BusOf(kind, kFifo, mem, sp) == Some(FetchXfer(f))
    {
      kind := KFetch;
      mem := mem.(req := true, write := false, instr := true, lock := false, addr := f.addr,
                  size := if f.long then L else W, fc := f.fc);
    }

    /** The next piece of a split transfer (write, function code and kind stand). */
    method NextPiece()
      requires PortOk(c, kind, mem, sp) && !mem.req && sp.on
      modifies this`mem
      ensures PortOk(c, kind, mem, sp)
      ensures BusOf(kind, kFifo, mem, sp) == Some(old(BusOf(kind, kFifo, mem, sp)).value.(high := true))
    {
      hide Crosses, Misal, WSplit, SplitOf;
      mem := mem.(req := true, size := if sp.w then W else B, addr := if sp.w then Plus(sp.a, 2 * sp.i) else Plus(sp.a, sp.i),
                  wdata := PieceData(if sp.w then Words else Bytewise, sp.d, sp.s, sp.i));
    }

    /** The piece on the port is answered. */
    method EndPiece(flt: bool, rdata: Word)
      requires PortOk(c, kind, mem, sp) && mem.req
      modifies this`mem, this`sp
      ensures PortOk(c, kind, mem, sp) && mem == old(mem).(req := false)
      ensures var t := old(BusOf(kind, kFifo, mem, sp)).value;
              BusOf(kind, kFifo, mem, sp) ==
                if old(SpFin(sp, flt)) then None
                else Some(t.(i := t.i + 1, high := false,
                             acc := if t.kind == KRead then Gather(SplitX(c, t), t.acc, rdata) else ZERO))
    {
      SpFinIsLast(c, kind, kFifo, mem, sp, flt);
      hide Crosses, Misal, WSplit, SplitOf;
      mem := mem.(req := false);
      if SpFin(sp, flt) {
        sp := sp.(on := false);
      } else {
        sp := sp.(i := sp.i + 1,
                  acc := if sp.w then Word(0, 0, rdata.b1, rdata.b0) else Word(0, sp.acc.b1, sp.acc.b0, rdata.b0));
      }
    }

    /** The port: the piece in progress ends, or a transfer or its next piece starts. */
    method StepPort(i: In)
      requires Valid()
      modifies this`kind, this`kFifo, this`mem, this`sp
      ensures PortOk(c, kind, mem, sp)
      ensures BusOf(kind, kFifo, mem, sp) == NextBus(c, old(View()), i)
      ensures kind == KStore && kFifo && (mem.req || sp.on) ==> ring.Contents != [] && !Pops(c, old(View()), i)
      ensures old(mem.req) ==> mem == old(mem).(req := !i.ack && !i.flt)
    {
      hide Crosses, Misal, WSplit, SplitOf, LwFirst, LwLast;
      if mem.req {
        if i.ack || i.flt {
          SpFinIsLast(c, kind, kFifo, mem, sp, i.flt);
          EndPiece(i.flt, i.rdata);
        }
      } else if sp.on {
        NextPiece();
      } else if c.mix && ring.cnt != 0 {
        var oldest := ring.Oldest();
        StartStore(oldest, true);
      } else if i.stV && !(c.doneReg && q.stDoneQ) && ring.cnt == 0 {
        StartStore(i.st, false);
      } else if ring.cnt == 0 && !i.stV && !i.olderSt && slot.Some? && !i.rdFast && !i.rdFwd && !i.rdHold {
        StartRead(slot.value);
      } else if i.fReq.Some? && !(c.mix && i.spWait) {
        StartFetch(i.fReq.value);
      }
    }

    /** The verdicts on a lookup launched this clock: EX's push, WB's store, then the ring. */
    method Lookup(i: In) returns (v: Looked)
      requires Valid()
      ensures v == NextLooked(c, View(), i)
    {
      hide LwFirst, LwLast, FOvl, FCov, FExt;
      if i.lk.None? { return q.lk; }
      var r := i.lk.value;
      var h := ring.LookupHit(r);
      var a := Miss;
      if i.exs.Some? { a := Ask(i.exs.value.(size := L), true, r); }
      if a == Miss && i.wbs.Some? { a := Ask(i.wbs.value, i.wbsOk, r); }
      if a == Miss { a := ring.Search(r); }
      v := Looked(c.mix && h, c.fwd && a.Hit?, if a.Hit? then a.value else ZERO);
    }

    /** Completions, and answers that do not need the port. */
    method Answers(i: In) returns (rd': Answer, ft': Answer, done: bool, pop: bool, goRd: bool)
      requires Valid()
      ensures pop ==> ring.Contents != []
      ensures goRd == GoRd(View(), i)
      ensures rd' == NextRd(c, View(), i) && ft' == NextFt(c, View(), i)
      ensures done == StDoneC(c, View(), i) && pop == Pops(c, View(), i)
    {
      if mem.req { SpFinIsLast(c, kind, kFifo, mem, sp, i.flt); }
      hide Crosses, Misal, WSplit, SplitOf, LwFirst, LwLast;
      goRd := !mem.req && !sp.on && ring.cnt == 0 && !i.stV && !i.olderSt && slot.Some?
              && !i.rdFast && !i.rdFwd && !i.rdHold;
      rd', ft', done, pop := q.rd.(ack := false), q.ft.(ack := false), false, false;
      if (i.rdFast || i.rdFwd) && slot.Some? {
        rd' := Answer(true, if i.rdFwd then q.lk.fwData else i.rdFastData, false);
      }
      if mem.req && (i.ack || i.flt) && SpFin(sp, i.flt) {
        match kind
        case KStore =>
          if kFifo { pop := true; } else { done := true; }
        case KRead =>
          rd' := Answer(true, SpRd(sp, i.rdata), i.flt);
        case KFetch =>
          ft' := Answer(true, if mem.size == W then Word(i.rdata.b1, i.rdata.b0, 0x4E, 0x71) else i.rdata, i.flt);
      }
    }

    /** The port and the ring: a piece or transfer ends or starts, an entry leaves, a posted store joins. */
    method Advance(i: In, pop: bool)
      requires Valid()
      requires i.spV ==> c.mix && |ring.Contents| < c.n
      requires pop == Pops(c, View(), i)
      modifies this`kind, this`kFifo, this`mem, this`sp, ring.Repr
      ensures Valid()
      ensures ring.Contents == NextFifo(c, old(View()), i) && BusOf(kind, kFifo, mem, sp) == NextBus(c, old(View()), i)
      ensures old(mem.req) ==> mem == old(mem).(req := !i.ack && !i.flt)
    {
      assert pop ==> ring.Contents != [];
      hide NextBus, Pops, BusOf, StoreRing.Valid, PortOk, Crosses, Misal, WSplit, SplitOf, LwLast, LwFirst;
      StepPort(i);
      ring.Turn(pop, c.mix && i.spV, i.st);
    }

    /** One enabled clock.  A request stands unchanged until it is answered, and is low the clock after. */
    method Step(i: In)
      requires Valid()
      requires i.spV ==> c.mix && |ring.Contents| < c.n
      modifies this, ring.Repr
      ensures Valid()
      ensures View() == Next(c, old(View()), i)
      ensures old(mem.req) ==> mem == old(mem).(req := !i.ack && !i.flt)
    {
      hide NextLooked, NextRd, NextFt, NextBus, NextFifo, Pops, StDoneC, BusOf, StoreRing.Valid, PortOk;
      var rd', ft', done, pop, goRd := Answers(i);
      var lk' := Lookup(i);
      Advance(i, pop);
      hide GoRd;
      slot := if goRd || ((i.rdFast || i.rdFwd) && slot.Some?) then None else if i.rdReq.Some? then i.rdReq else slot;
      q := Regs(lk', done, rd', ft', q.stErr || (pop && i.flt));
    }
  }
}
