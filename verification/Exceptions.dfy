/** Exception frames and RTE: what an entry stacks and sets, what an RTE takes back, and handlers nested to any depth. */
module Exceptions {
  import opened Memory

  /** The status register's implemented bits: T1 T0, S, M, the interrupt mask and X N Z V C. */
  datatype Sr = Sr(t1: bool, t0: bool, s: bool, m: bool, mask: nat, ccr: nat)

  predicate ValidSr(r: Sr) { r.mask < 8 && r.ccr < 32 }

  type SrReg = r: Sr | ValidSr(r) witness Sr(false, false, true, false, 7, 0)

  function Bit(b: bool, v: nat): nat { if b then v else 0 }

  function SrHi(r: SrReg): Byte { Bit(r.t1, 128) + Bit(r.t0, 64) + Bit(r.s, 32) + Bit(r.m, 16) + r.mask }

  function SrLo(r: SrReg): Byte { r.ccr }

  /** A stacked word as the status register takes it: the unimplemented bits drop out. */
  function SrOf(hi: Byte, lo: Byte): SrReg {
    var k := hi / 8;
    Sr(k / 16 == 1, k / 8 % 2 == 1, k / 4 % 2 == 1, k / 2 % 2 == 1, hi % 8, lo % 32)
  }

  lemma SrRoundTrip(r: SrReg)
    ensures SrOf(SrHi(r), SrLo(r)) == r
  {
    var k := Bit(r.t1, 16) + Bit(r.t0, 8) + Bit(r.s, 4) + Bit(r.m, 2);
    assert SrHi(r) == 8 * k + r.mask;
    assert SrHi(r) / 8 == k && SrHi(r) % 8 == r.mask;
  }

  /** The status register as the word a frame holds. */
  function SrNumber(r: SrReg): nat {
    Bit(r.t1, 0x8000) + Bit(r.t0, 0x4000) + Bit(r.s, 0x2000) + Bit(r.m, 0x1000) + 0x100 * r.mask + r.ccr
  }

  lemma SrNumberIs(r: SrReg, hi: Byte, lo: Byte)
    ensures hi * 256 + lo == SrNumber(r) <==> hi == SrHi(r) && lo == SrLo(r)
  {
  }

  /** Of a word read from a frame each implemented bit is taken, and no other. */
  lemma SrBits(hi: Byte, lo: Byte)
    ensures var r := SrOf(hi, lo);
            && (r.t1 <==> hi >= 128) && (r.t0 <==> hi % 128 >= 64) && (r.s <==> hi % 64 >= 32) && (r.m <==> hi % 32 >= 16)
            && r.mask == hi % 8 && r.ccr == lo % 32
  {
    Bit6(hi);
    Bit5(hi);
    Bit4(hi);
  }

  lemma Bit6(hi: Byte)
    ensures hi / 8 / 8 % 2 == 1 <==> hi % 128 >= 64
  {
  }

  lemma Bit5(hi: Byte)
    ensures hi / 8 / 4 % 2 == 1 <==> hi % 64 >= 32
  {
  }

  lemma Bit4(hi: Byte)
    ensures hi / 8 / 2 % 2 == 1 <==> hi % 32 >= 16
  {
    var q, t := hi / 32, hi % 32 / 8;
    assert hi / 8 == 4 * q + t;
    Digit(q, t);
  }

  lemma Digit(q: nat, t: nat)
    requires t < 4
    ensures (4 * q + t) / 2 % 2 == t / 2
  {
  }

  /** `x`: the page map, which handlers may change. */
  datatype Cpu = Cpu(sr: SrReg, pc: Word, usp: Addr, isp: Addr, msp: Addr, m: Mem, x: Pages)

  /** Where supervisor data accesses find address `a`, and the byte there. */
  ghost function At(x: Pages, a: Addr): Addr { Phys(x, 5, a) }

  ghost function See(c: Cpu, a: Addr): Byte { c.m[At(c.x, a)] }

  /** Format $0 and $1 frames are four words, $2 and $3 six, $4 eight, $7 thirty. */
  function FrameSize(fmt: nat): (n: nat)
    ensures 8 <= n <= 60 && n % 4 == 0
  {
    if fmt == 2 || fmt == 3 then 12 else if fmt == 4 then 16 else if fmt == 7 then 60 else 8
  }

  /** An exception: its format and vector, the PC to stack, the address longword of formats $2, $3 and $4, the
    faulting PC of $4, the rest of $7, whether it is an interrupt and of which level, and where its vector points. */
  datatype Event = Event(fmt: nat, vec: Byte, pc: Word, addr: Word, ipc: Word, rest: seq<Word>, irq: bool, lvl: nat,
                         target: Word)

  predicate ValidEvent(e: Event) {
    && e.lvl < 8 && |e.rest| == 13 && e.pc.b0 % 2 == 0
    && (e.fmt == 0 || e.fmt == 2 || e.fmt == 3 || e.fmt == 4 || e.fmt == 7) && (e.irq ==> e.fmt == 0)
  }

  type Ev = e: Event | ValidEvent(e) witness Event(0, 0, ZERO, ZERO, ZERO, seq(13, _ => ZERO), false, 0, ZERO)

  /** Longword `k` of a frame. */
  function FrameWord(e: Ev, fmt: nat, sr: SrReg, k: nat): Word
    requires fmt < 16 && k < FrameSize(fmt) / 4
  {
    if k == 0 then Word(SrHi(sr), SrLo(sr), e.pc.b3, e.pc.b2)
    else if k == 1 then Word(e.pc.b1, e.pc.b0, fmt * 16 + e.vec / 64, e.vec * 4 % 256)
    else if fmt == 7 then e.rest[k - 2]
    else if fmt == 4 && k == 3 then e.ipc
    else e.addr
  }

  function Down(a: Addr, n: nat): Addr { (a - n) % M32 }

  function FrameStore(e: Ev, fmt: nat, sr: SrReg, sp: Addr, k: nat): Store
    requires fmt < 16 && k < FrameSize(fmt) / 4
  {
    Store(Plus(sp, 4 * k), L, FrameWord(e, fmt, sr, k), 5)
  }

  function FrameStores(e: Ev, fmt: nat, sr: SrReg, sp: Addr, k: nat): (ss: seq<Store>)
    requires fmt < 16 && k <= FrameSize(fmt) / 4
    ensures |ss| == k && forall q :: 0 <= q < k ==> ss[q] == FrameStore(e, fmt, sr, sp, q)
  {
    if k == 0 then [] else FrameStores(e, fmt, sr, sp, k - 1) + [FrameStore(e, fmt, sr, sp, k - 1)]
  }

  /** Memory with a whole frame at `sp`. */
  ghost function WithFrame(x: Pages, e: Ev, fmt: nat, sr: SrReg, sp: Addr, m: Mem): Mem
    requires fmt < 16
  {
    ApplyAll(x, m, FrameStores(e, fmt, sr, sp, FrameSize(fmt) / 4))
  }

  /** An interrupt taken with M set stacks a second frame, a throwaway one on the interrupt stack. */
  predicate TwoFrames(c: Cpu, e: Ev) { e.irq && c.sr.m }

  /** S set, T clear, M kept but for an interrupt that finds it set; an interrupt raises the mask to its level. */
  function EntrySr(sr: SrReg, e: Ev): SrReg {
    Sr(false, false, true, sr.m && !e.irq, if e.irq then e.lvl else sr.mask, sr.ccr)
  }

  ghost function Enter(c: Cpu, e: Ev): Cpu {
    var sp := Down(if c.sr.m then c.msp else c.isp, FrameSize(e.fmt));
    var m1 := WithFrame(c.x, e, e.fmt, c.sr, sp, c.m);
    if TwoFrames(c, e) then
      var isp := Down(c.isp, 8);
      Cpu(EntrySr(c.sr, e), e.target, c.usp, isp, sp, WithFrame(c.x, e, 1, c.sr.(s := true), isp, m1), c.x)
    else if c.sr.m then Cpu(EntrySr(c.sr, e), e.target, c.usp, c.isp, sp, m1, c.x)
    else Cpu(EntrySr(c.sr, e), e.target, c.usp, sp, c.msp, m1, c.x)
  }

  // ---------------------------------------------------------------- RTE

  datatype Outcome = Resumed(c: Cpu) | NextFrame(c: Cpu) | FormatError | OddPc(c: Cpu)

  predicate GoodFormat(fmt: nat) { fmt <= 4 || fmt == 7 }

  /** The PC in the frame on the stack that M selects. */
  ghost function StackedPc(c: Cpu): Word {
    var sp := if c.sr.m then c.msp else c.isp;
    Word(See(c, Plus(sp, 2)), See(c, Plus(sp, 3)), See(c, Plus(sp, 4)), See(c, Plus(sp, 5)))
  }

  /** One frame off the stack that M selects. */
  ghost function RteFrame(c: Cpu): Outcome {
    var sp := if c.sr.m then c.msp else c.isp;
    var sr := SrOf(See(c, sp), See(c, Plus(sp, 1)));
    var pc := StackedPc(c);
    var fmt := See(c, Plus(sp, 6)) / 16;
    if !GoodFormat(fmt) then FormatError
    else
      var up := Plus(sp, FrameSize(fmt));
      var c1 := if c.sr.m then c.(msp := up, sr := sr) else c.(isp := up, sr := sr);
      if fmt == 1 then NextFrame(c1)
      else if pc.b0 % 2 == 1 then OddPc(c1)
      else Resumed(c1.(pc := pc))
  }

  /** `d` is `c` with a frame of `n` bytes off its stack and the status register it held. */
  ghost predicate TakenOff(c: Cpu, d: Cpu, n: nat) {
    var sp := if c.sr.m then c.msp else c.isp;
    var hi, lo := See(c, sp), See(c, Plus(sp, 1));
    && d.m == c.m && d.x == c.x && d.usp == c.usp
    && (if c.sr.m then d.msp == (sp + n) % M32 && d.isp == c.isp else d.isp == (sp + n) % M32 && d.msp == c.msp)
    && (d.sr.t1 <==> hi >= 128) && (d.sr.t0 <==> hi % 128 >= 64) && (d.sr.s <==> hi % 64 >= 32) && (d.sr.m <==> hi % 32 >= 16)
    && d.sr.mask == hi % 8 && d.sr.ccr == lo % 32
  }

  /** What an RTE makes of the frame on its stack: formats $0 to $4 and $7 are known, each with its size; $1 leads to the
    next frame, any other to the stacked PC if that is even. */
  lemma RteFrameMeans(c: Cpu)
    ensures var sp := if c.sr.m then c.msp else c.isp;
            var f := See(c, Plus(sp, 6)) / 16;
            var n := if f == 2 || f == 3 then 12 else if f == 4 then 16 else if f == 7 then 60 else 8;
            match RteFrame(c)
            case FormatError => f == 5 || f == 6 || f > 7
            case NextFrame(d) => f == 1 && TakenOff(c, d, n) && d.pc == c.pc
            case Resumed(d) => (f == 0 || 2 <= f <= 4 || f == 7) && TakenOff(c, d, n) && d.pc == StackedPc(c) && d.pc.b0 % 2 == 0
            case OddPc(d) => (f == 0 || 2 <= f <= 4 || f == 7) && TakenOff(c, d, n) && StackedPc(c).b0 % 2 == 1 && d.pc == c.pc
  {
    var sp := if c.sr.m then c.msp else c.isp;
    SrBits(See(c, sp), See(c, Plus(sp, 1)));
    hide SrOf, See, StackedPc, ValidSr, FrameSize;
    FrameSizes();
  }

  /** Where `n` throwaway frames leave the processor, if there are so many: the RTE then runs again from its
    start, its privilege check included. */
  ghost function Popped(c: Cpu, n: nat): Option<Cpu> {
    if n == 0 then Some(c)
    else
      match Popped(c, n - 1)
      case None => None
      case Some(d) => if !d.sr.s then None else match RteFrame(d) { case NextFrame(d1) => Some(d1) case _ => None }
  }

  /** An RTE that goes back to a program through at most one throwaway frame, which is all that an entry stacks. */
  ghost function Rte(c: Cpu): Option<Cpu> {
    if !c.sr.s then None
    else
      match RteFrame(c)
      case Resumed(c1) => Some(c1)
      case NextFrame(c1) => if !c1.sr.s then None else (match RteFrame(c1) case Resumed(c2) => Some(c2) case _ => None)
      case _ => None
  }

  // ---------------------------------------------------------------- frames in memory

  /** The four words every frame starts with: SR, PC, and the format with the vector's offset. */
  ghost predicate FrameAt(c: Cpu, sp: Addr, sr: SrReg, pc: Word, fmt: nat, vec: Byte) {
    && See(c, sp) * 256 + See(c, Plus(sp, 1)) == SrNumber(sr)
    && See(c, Plus(sp, 2)) == pc.b3 && See(c, Plus(sp, 3)) == pc.b2
    && See(c, Plus(sp, 4)) == pc.b1 && See(c, Plus(sp, 5)) == pc.b0
    && See(c, Plus(sp, 6)) * 256 + See(c, Plus(sp, 7)) == fmt * 0x1000 + vec * 4
  }

  ghost function LongAt(c: Cpu, a: Addr): Word { Word(See(c, a), See(c, Plus(a, 1)), See(c, Plus(a, 2)), See(c, Plus(a, 3))) }

  /** What the longer frames hold after that: the address of formats $2, $3 and $4, the faulted instruction's PC of $4,
    the thirteen longwords of $7. */
  ghost predicate FrameRest(c: Cpu, sp: Addr, e: Ev) {
    && (e.fmt == 2 || e.fmt == 3 || e.fmt == 4 ==> LongAt(c, Plus(sp, 8)) == e.addr)
    && (e.fmt == 4 ==> LongAt(c, Plus(sp, 12)) == e.ipc)
    && (e.fmt == 7 ==> forall k :: 0 <= k < 13 ==> LongAt(c, Plus(sp, 8 + 4 * k)) == e.rest[k])
  }

  predicate Within(a: Addr, lo: Addr, n: nat) { (a - lo) % M32 < n }

  lemma InFrame(sp: Addr, d: nat, n: nat)
    requires d < n <= M32
    ensures Within(Plus(sp, d), sp, n)
  {
    assert ((sp + d) % M32 - sp) % M32 == d;
  }

  lemma FrameLast(x: Pages, e: Ev, fmt: nat, sr: SrReg, sp: Addr, m: Mem, k: nat)
    requires fmt < 16 && 0 < k <= FrameSize(fmt) / 4
    ensures ApplyAll(x, m, FrameStores(e, fmt, sr, sp, k))
              == Put(x, ApplyAll(x, m, FrameStores(e, fmt, sr, sp, k - 1)), FrameStore(e, fmt, sr, sp, k - 1), 4)
  {
    hide FrameSize, FrameStore, ApplyAll, Put;
    var ss := FrameStores(e, fmt, sr, sp, k);
    assert ss[..k - 1] == FrameStores(e, fmt, sr, sp, k - 1);
    LastApplied(x, m, ss);
    assert FrameStore(e, fmt, sr, sp, k - 1).size == L by { IsLong(e, fmt, sr, sp, k - 1); }
  }

  lemma IsLong(e: Ev, fmt: nat, sr: SrReg, sp: Addr, k: nat)
    requires fmt < 16 && k < FrameSize(fmt) / 4
    ensures FrameStore(e, fmt, sr, sp, k).size == L
  {
  }

  lemma LastApplied(x: Pages, m: Mem, ss: seq<Store>)
    requires ss != []
    ensures ApplyAll(x, m, ss) == Apply(x, ApplyAll(x, m, ss[..|ss| - 1]), ss[|ss| - 1])
  {
  }

  lemma NoFrame(x: Pages, e: Ev, fmt: nat, sr: SrReg, sp: Addr, m: Mem)
    requires fmt < 16
    ensures ApplyAll(x, m, FrameStores(e, fmt, sr, sp, 0)) == m
  {
  }

  lemma FrameByte(x: Pages, e: Ev, fmt: nat, sr: SrReg, sp: Addr, k: nat, j: nat)
    requires fmt < 16 && k < FrameSize(fmt) / 4 && j < 4
    ensures StPhys(x, FrameStore(e, fmt, sr, sp, k), j) == At(x, Plus(sp, 4 * k + j))
  {
    PlusPlus(sp, 4 * k, j);
    hide Plus, Phys;
  }

  /** A frame's stores touch its own bytes only, wherever its pages are. */
  lemma {:induction false} FrameKeeps(x: Pages, e: Ev, fmt: nat, sr: SrReg, sp: Addr, m: Mem, k: nat, p: Addr)
    requires fmt < 16 && k <= FrameSize(fmt) / 4 && forall a: Addr :: Within(a, sp, FrameSize(fmt)) ==> At(x, a) != p
    ensures ApplyAll(x, m, FrameStores(e, fmt, sr, sp, k))[p] == m[p]
  {
    hide Within, FrameWord, Put, FrameSize, Plus, FrameStores, ApplyAll, StPhys, FrameStore, At;
    if k == 0 {
      NoFrame(x, e, fmt, sr, sp, m);
    } else {
      FrameKeeps(x, e, fmt, sr, sp, m, k - 1, p);
      FrameLast(x, e, fmt, sr, sp, m, k);
      IsLong(e, fmt, sr, sp, k - 1);
      var s := FrameStore(e, fmt, sr, sp, k - 1);
      forall j | 0 <= j < 4 ensures StPhys(x, s, j) != p {
        FrameByte(x, e, fmt, sr, sp, k - 1, j);
        InFrame(sp, 4 * (k - 1) + j, FrameSize(fmt));
      }
      PutKeeps(x, ApplyAll(x, m, FrameStores(e, fmt, sr, sp, k - 1)), s, 4, p);
    }
  }

  lemma {:induction false} FrameLays(x: Pages, e: Ev, fmt: nat, sr: SrReg, sp: Addr, m: Mem, k: nat, q: nat, j: nat)
    requires fmt < 16 && q < k <= FrameSize(fmt) / 4 && j < 4
    ensures ApplyAll(x, m, FrameStores(e, fmt, sr, sp, k))[At(x, Plus(sp, 4 * q + j))] == Lane(FrameWord(e, fmt, sr, q), 3 - j)
  {
    hide FrameWord, FrameStores, ApplyAll, Put, Plus, StPhys, At;
    FrameLast(x, e, fmt, sr, sp, m, k);
    var s, m1 := FrameStore(e, fmt, sr, sp, k - 1), ApplyAll(x, m, FrameStores(e, fmt, sr, sp, k - 1));
    if q == k - 1 {
      FrameByte(x, e, fmt, sr, sp, q, j);
      PutWrites(x, m1, s, 4, j);
    } else {
      FrameLays(x, e, fmt, sr, sp, m, k - 1, q, j);
      forall i | 0 <= i < 4 ensures StPhys(x, s, i) != At(x, Plus(sp, 4 * q + j)) {
        FrameByte(x, e, fmt, sr, sp, k - 1, i);
        PlusDiffers(x, sp, 4 * (k - 1) + i, 4 * q + j);
      }
      PutKeeps(x, m1, s, 4, At(x, Plus(sp, 4 * q + j)));
    }
  }

  /** Bytes less than a page apart are never one byte of memory. */
  lemma PlusDiffers(x: Pages, a: Addr, p: nat, q: nat)
    requires p < PAGE && q < PAGE && p != q
    ensures At(x, Plus(a, p)) != At(x, Plus(a, q))
  {
    assert Plus(a, p) % PAGE != Plus(a, q) % PAGE;
  }

  lemma FrameIsAt(c: Cpu, e: Ev, fmt: nat, sr: SrReg, sp: Addr, m: Mem)
    requires fmt < 16 && c.m == WithFrame(c.x, e, fmt, sr, sp, m)
    ensures FrameAt(c, sp, sr, e.pc, fmt, e.vec)
  {
    hide WithFrame, SrHi, SrLo, FrameSize, SrNumber, See, Plus, FrameWord;
    FrameHead(e, fmt, sr);
    assert FrameSize(fmt) / 4 >= 2;
    FrameLong(c, e, fmt, sr, sp, m, 0);
    FrameLong(c, e, fmt, sr, sp, m, 1);
    SrNumberIs(sr, SrHi(sr), SrLo(sr));
    HeadPlaces(sp);
  }

  lemma HeadPlaces(sp: Addr)
    ensures Plus(sp, 0) == sp && Plus(Plus(sp, 4), 1) == Plus(sp, 5) && Plus(Plus(sp, 4), 2) == Plus(sp, 6)
    ensures Plus(Plus(sp, 4), 3) == Plus(sp, 7)
  {
    PlusPlus(sp, 4, 1);
    PlusPlus(sp, 4, 2);
    PlusPlus(sp, 4, 3);
  }

  lemma FrameHead(e: Ev, fmt: nat, sr: SrReg)
    requires fmt < 16
    ensures FrameWord(e, fmt, sr, 0) == Word(SrHi(sr), SrLo(sr), e.pc.b3, e.pc.b2)
    ensures var w := FrameWord(e, fmt, sr, 1);
            w.b3 == e.pc.b1 && w.b2 == e.pc.b0 && w.b1 * 256 + w.b0 == fmt * 0x1000 + e.vec * 4
  {
  }

  /** Longword `q` of a frame. */
  lemma FrameLong(c: Cpu, e: Ev, fmt: nat, sr: SrReg, sp: Addr, m: Mem, q: nat)
    requires fmt < 16 && c.m == WithFrame(c.x, e, fmt, sr, sp, m) && q < FrameSize(fmt) / 4
    ensures LongAt(c, Plus(sp, 4 * q)) == FrameWord(e, fmt, sr, q)
  {
    hide ApplyAll, FrameStores, FrameWord, FrameSize, At;
    FrameLays(c.x, e, fmt, sr, sp, m, FrameSize(fmt) / 4, q, 0);
    FrameLays(c.x, e, fmt, sr, sp, m, FrameSize(fmt) / 4, q, 1);
    FrameLays(c.x, e, fmt, sr, sp, m, FrameSize(fmt) / 4, q, 2);
    FrameLays(c.x, e, fmt, sr, sp, m, FrameSize(fmt) / 4, q, 3);
    PlusPlus(sp, 4 * q, 1);
    PlusPlus(sp, 4 * q, 2);
    PlusPlus(sp, 4 * q, 3);
    hide Plus;
  }

  lemma FrameRestIs(c: Cpu, e: Ev, sr: SrReg, sp: Addr, m: Mem)
    requires c.m == WithFrame(c.x, e, e.fmt, sr, sp, m)
    ensures FrameRest(c, sp, e)
  {
    hide WithFrame, LongAt, Plus;
    FrameSizes();
    if e.fmt == 2 || e.fmt == 3 || e.fmt == 4 { FrameLong(c, e, e.fmt, sr, sp, m, 2); }
    if e.fmt == 4 { FrameLong(c, e, e.fmt, sr, sp, m, 3); }
    if e.fmt == 7 {
      forall k | 0 <= k < 13 ensures LongAt(c, Plus(sp, 8 + 4 * k)) == e.rest[k] {
        FrameLong(c, e, 7, sr, sp, m, 2 + k);
        assert 4 * (2 + k) == 8 + 4 * k;
      }
    }
  }

  /** Bytes a frame of each format takes. */
  lemma FrameSizes()
    ensures FrameSize(0) == 8 && FrameSize(1) == 8 && FrameSize(2) == 12 && FrameSize(3) == 12 && FrameSize(4) == 16
    ensures FrameSize(7) == 60
  {
  }

  // ---------------------------------------------------------------- handlers

  /** The stacks' outermost extents: bytes from the pointer up to these are in use. */
  datatype Tops = Tops(i: Addr, m: Addr)

  predicate Live(c: Cpu, t: Tops, a: Addr) {
    Within(a, c.isp, (t.i - c.isp) % M32) || Within(a, c.msp, (t.m - c.msp) % M32)
  }

  /** Code that leaves the stacks as it found them: the pointers, what is on them, and the stack in use.  It may map
    their pages elsewhere, as long as what they hold reads the same. */
  ghost predicate Keeps(c: Cpu, c': Cpu, t: Tops) {
    && c'.usp == c.usp && c'.isp == c.isp && c'.msp == c.msp && c'.sr.s && c'.sr.m == c.sr.m
    && forall a: Addr :: Live(c, t, a) ==> See(c', a) == See(c, a)
  }

  /** What a handler does: code of its own, which leaves the processor as given, or an exception and its handler. */
  datatype Act = Work(c: Cpu) | Nested(e: Ev, h: seq<Act>)

  ghost function Run(c: Cpu, acts: seq<Act>): Option<Cpu>
    decreases acts, 0
  {
    if acts == [] then Some(c)
    else
      match acts[0]
      case Work(c1) => Run(c1, acts[1..])
      case Nested(e, h) =>
        var r := Handle(c, e, h);
        if r.Some? then Run(r.value, acts[1..]) else None
  }

  /** An exception, its handler and the RTE that ends it. */
  ghost function Handle(c: Cpu, e: Ev, h: seq<Act>): Option<Cpu>
    decreases h, 1
  {
    var r := Run(Enter(c, e), h);
    if r.Some? then Rte(r.value) else None
  }

  /** There is room for a frame: in memory it meets neither stack's bytes in use. */
  ghost predicate RoomAt(c: Cpu, t: Tops, sp: Addr, n: nat) {
    forall a: Addr, b: Addr :: Within(a, sp, n) && Live(c, t, b) ==> At(c.x, a) != At(c.x, b)
  }

  /** ... for the frame or frames of an entry, and the two of a throwaway entry do not meet; the stacks are not
    so deep as to wrap. */
  ghost predicate Room(c: Cpu, e: Ev, t: Tops) {
    var sp := Down(if c.sr.m then c.msp else c.isp, FrameSize(e.fmt));
    && (t.i - c.isp) % M32 + 60 < M32 && (t.m - c.msp) % M32 + 60 < M32
    && RoomAt(c, t, sp, FrameSize(e.fmt))
    && (TwoFrames(c, e) ==>
          && RoomAt(c, t, Down(c.isp, 8), 8)
          && forall a: Addr, b: Addr :: Within(a, Down(c.isp, 8), 8) && Within(b, sp, 8) ==> At(c.x, a) != At(c.x, b))
  }

  /** A handler whose own code is balanced, with room for every frame, at every depth. */
  ghost predicate Balanced(c: Cpu, acts: seq<Act>, t: Tops)
    decreases acts
  {
    acts == [] ||
    match acts[0]
    case Work(c1) => Keeps(c, c1, t) && Balanced(c1, acts[1..], t)
    case Nested(e, h) =>
      && Room(c, e, t) && Balanced(Enter(c, e), h, t)
      && (Handle(c, e, h).Some? ==> Balanced(Handle(c, e, h).value, acts[1..], t))
  }

  /** What is restored: the whole status register, all three stack pointers, and everything on the stacks; execution
    goes on at the PC that was stacked. */
  ghost predicate Restored(c: Cpu, e: Ev, t: Tops, r: Option<Cpu>) {
    && r.Some?
    && r.value.sr == c.sr && r.value.pc == e.pc
    && r.value.usp == c.usp && r.value.isp == c.isp && r.value.msp == c.msp
    && forall a: Addr :: Live(c, t, a) ==> See(r.value, a) == See(c, a)
  }

  // ---------------------------------------------------------------- entry and return

  /** The handler starts in supervisor mode and untraced at the vector's address, an interrupt's with the mask raised to
    its level; the entry's frames are at the stack pointers it leaves, live, and nothing live before has changed. */
  ghost predicate Stacked(c: Cpu, e: Ev, t: Tops, c1: Cpu) {
    && c1.pc == e.target
    && c1.sr.s && !c1.sr.t1 && !c1.sr.t0 && c1.sr.m == (c.sr.m && !e.irq)
    && c1.sr.mask == (if e.irq then e.lvl else c.sr.mask) && c1.sr.ccr == c.sr.ccr
    && c1.usp == c.usp
    && (forall a: Addr :: Live(c, t, a) ==> See(c1, a) == See(c, a) && Live(c1, t, a))
    && (if TwoFrames(c, e) then
          && c1.isp == Down(c.isp, 8) && c1.msp == Down(c.msp, FrameSize(e.fmt))
          && FrameAt(c1, c1.isp, c.sr.(s := true), e.pc, 1, e.vec) && FrameAt(c1, c1.msp, c.sr, e.pc, e.fmt, e.vec)
          && (forall a: Addr :: Within(a, c1.isp, 8) || Within(a, c1.msp, 8) ==> Live(c1, t, a))
        else
          && c1.isp == (if c.sr.m then c.isp else Down(c.isp, FrameSize(e.fmt)))
          && c1.msp == (if c.sr.m then Down(c.msp, FrameSize(e.fmt)) else c.msp)
          && FrameAt(c1, if c.sr.m then c1.msp else c1.isp, c.sr, e.pc, e.fmt, e.vec)
          && FrameRest(c1, if c.sr.m then c1.msp else c1.isp, e)
          && (forall a: Addr :: Within(a, if c.sr.m then c1.msp else c1.isp, 8) ==> Live(c1, t, a)))
  }

  /** Pushing `n` bytes keeps what was in use in use, and puts the new bytes in use. */
  lemma PushLives(sp: Addr, top: Addr, n: nat, a: Addr)
    requires n <= 60 && (top - sp) % M32 + 60 < M32
    ensures Within(a, sp, (top - sp) % M32) ==> Within(a, Down(sp, n), (top - Down(sp, n)) % M32)
    ensures Within(a, Down(sp, n), n) ==> Within(a, Down(sp, n), (top - Down(sp, n)) % M32)
  {
    Lower(a, sp, n);
    Lower(top, sp, n);
  }

  lemma Lower(a: Addr, sp: Addr, n: nat)
    requires n <= 60
    ensures (a - Down(sp, n)) % M32 == ((a - sp) % M32 + n) % M32
  {
    ModAdd(a - sp, n);
    ModSub(a, sp - n);
  }

  lemma ModSub(v: int, k: int)
    ensures (v - k % M32) % M32 == (v - k) % M32
  {
  }

  lemma OneFrameStacks(c: Cpu, e: Ev, t: Tops)
    requires Room(c, e, t) && !TwoFrames(c, e)
    ensures Stacked(c, e, t, Enter(c, e))
  {
    hide WithFrame, FrameAt, FrameRest, Within, FrameSize, Down, At;
    var n := FrameSize(e.fmt);
    var sp, top := if c.sr.m then c.msp else c.isp, if c.sr.m then t.m else t.i;
    var to := Down(sp, n);
    FrameIsAt(Enter(c, e), e, e.fmt, c.sr, to, c.m);
    FrameRestIs(Enter(c, e), e, c.sr, to, c.m);
    forall a: Addr ensures Live(c, t, a) ==> See(Enter(c, e), a) == See(c, a) && Live(Enter(c, e), t, a) {
      PushLives(sp, top, n, a);
      if Live(c, t, a) { WithFrameKeeps(c.x, e, e.fmt, c.sr, to, c.m, At(c.x, a)); }
    }
    forall a: Addr | Within(a, to, 8) ensures Live(Enter(c, e), t, a) {
      WithinMore(a, to, 8, n);
      PushLives(sp, top, n, a);
    }
  }

  lemma WithinMore(a: Addr, lo: Addr, n: nat, m: nat)
    requires n <= m
    ensures Within(a, lo, n) ==> Within(a, lo, m)
  {
  }

  lemma WithFrameKeeps(x: Pages, e: Ev, fmt: nat, sr: SrReg, sp: Addr, m: Mem, p: Addr)
    requires fmt < 16 && forall a: Addr :: Within(a, sp, FrameSize(fmt)) ==> At(x, a) != p
    ensures WithFrame(x, e, fmt, sr, sp, m)[p] == m[p]
  {
    FrameKeeps(x, e, fmt, sr, sp, m, FrameSize(fmt) / 4, p);
  }

  /** A frame that another is pushed away from. */
  lemma FrameStays(c: Cpu, c': Cpu, sp: Addr, sr: SrReg, pc: Word, fmt: nat, vec: Byte)
    requires FrameAt(c, sp, sr, pc, fmt, vec) && forall a: Addr :: Within(a, sp, 8) ==> See(c', a) == See(c, a)
    ensures FrameAt(c', sp, sr, pc, fmt, vec)
  {
    hide Within, SrNumber, See, ValidSr;
    InFrame(sp, 0, 8);
    InFrame(sp, 1, 8);
    InFrame(sp, 2, 8);
    InFrame(sp, 3, 8);
    InFrame(sp, 4, 8);
    InFrame(sp, 5, 8);
    InFrame(sp, 6, 8);
    InFrame(sp, 7, 8);
    assert Plus(sp, 0) == sp;
    hide Plus;
  }

  lemma TwoFramesStack(c: Cpu, e: Ev, t: Tops)
    requires Room(c, e, t) && TwoFrames(c, e)
    ensures Stacked(c, e, t, Enter(c, e))
  {
    hide WithFrame, FrameAt, Within, Down, At;
    var m2, i2 := Down(c.msp, 8), Down(c.isp, 8);
    var m1, c1 := WithFrame(c.x, e, e.fmt, c.sr, m2, c.m), Enter(c, e);
    FrameIsAt(c.(m := m1), e, e.fmt, c.sr, m2, c.m);
    FrameIsAt(c1, e, 1, c.sr.(s := true), i2, m1);
    forall a: Addr ensures Live(c, t, a) ==> See(c1, a) == See(c, a) && Live(c1, t, a) {
      PushLives(c.msp, t.m, 8, a);
      PushLives(c.isp, t.i, 8, a);
      if Live(c, t, a) {
        WithFrameKeeps(c.x, e, e.fmt, c.sr, m2, c.m, At(c.x, a));
        WithFrameKeeps(c.x, e, 1, c.sr.(s := true), i2, m1, At(c.x, a));
      }
    }
    forall a: Addr ensures Within(a, i2, 8) || Within(a, m2, 8) ==> Live(c1, t, a) {
      PushLives(c.msp, t.m, 8, a);
      PushLives(c.isp, t.i, 8, a);
    }
    forall a: Addr | Within(a, m2, 8) ensures See(c1, a) == See(c.(m := m1), a) {
      WithFrameKeeps(c.x, e, 1, c.sr.(s := true), i2, m1, At(c.x, a));
    }
    FrameStays(c.(m := m1), c1, m2, c.sr, e.pc, e.fmt, e.vec);
  }

  /** An RTE takes a frame off as it was put on. */
  lemma RteTakes(c: Cpu, sr: SrReg, pc: Word, fmt: nat, vec: Byte)
    requires FrameAt(c, if c.sr.m then c.msp else c.isp, sr, pc, fmt, vec) && GoodFormat(fmt) && pc.b0 % 2 == 0
    ensures var up := Plus(if c.sr.m then c.msp else c.isp, FrameSize(fmt));
            var c1 := if c.sr.m then c.(msp := up, sr := sr) else c.(isp := up, sr := sr);
            RteFrame(c) == if fmt == 1 then NextFrame(c1) else Resumed(c1.(pc := pc))
  {
    SrRoundTrip(sr);
    var sp := if c.sr.m then c.msp else c.isp;
    SrNumberIs(sr, See(c, sp), See(c, Plus(sp, 1)));
    FormatOf(See(c, Plus(sp, 6)), See(c, Plus(sp, 7)), fmt, vec);
    hide SrNumber, SrHi, SrLo, SrOf, FrameSize;
  }

  lemma FormatOf(hi: Byte, lo: Byte, fmt: nat, vec: Byte)
    requires hi * 256 + lo == fmt * 0x1000 + vec * 4
    ensures hi / 16 == fmt
  {
  }

  lemma DownUp(a: Addr, n: nat)
    ensures Plus(Down(a, n), n) == a
  {
    ModAdd(a - n, n);
  }

  /** The RTE at the end of a balanced handler. */
  lemma ReturnRestores(c: Cpu, e: Ev, t: Tops, c1: Cpu, c2: Cpu)
    requires Stacked(c, e, t, c1) && Keeps(c1, c2, t)
    ensures Restored(c, e, t, Rte(c2))
  {
    hide FrameAt, Within, Live, Down, FrameSize, RteFrame, SrOf;
    if TwoFrames(c, e) {
      FrameStays(c1, c2, c1.isp, c.sr.(s := true), e.pc, 1, e.vec);
      FrameStays(c1, c2, c1.msp, c.sr, e.pc, e.fmt, e.vec);
      RteTakes(c2, c.sr.(s := true), e.pc, 1, e.vec);
      DownUp(c.isp, 8);
      DownUp(c.msp, FrameSize(e.fmt));
      var c3 := c2.(isp := Plus(c2.isp, FrameSize(1)), sr := c.sr.(s := true));
      FrameStays(c2, c3, c3.msp, c.sr, e.pc, e.fmt, e.vec);
      RteTakes(c3, c.sr, e.pc, e.fmt, e.vec);
      assert FrameSize(1) == 8 by { FrameSizes(); }
    } else {
      FrameStays(c1, c2, if c.sr.m then c1.msp else c1.isp, c.sr, e.pc, e.fmt, e.vec);
      RteTakes(c2, c.sr, e.pc, e.fmt, e.vec);
      DownUp(if c.sr.m then c.msp else c.isp, FrameSize(e.fmt));
    }
  }

  // ---------------------------------------------------------------- any nesting

  lemma KeepsOn(c: Cpu, c1: Cpu, c2: Cpu, t: Tops)
    requires Keeps(c, c1, t) && Keeps(c1, c2, t)
    ensures Keeps(c, c2, t)
  {
    hide Within;
  }

  /** A balanced handler runs to its end and keeps the stacks. */
  lemma {:induction false} HandlerKeeps(c: Cpu, acts: seq<Act>, t: Tops)
    requires c.sr.s && Balanced(c, acts, t)
    ensures Run(c, acts).Some? && Keeps(c, Run(c, acts).value, t)
    decreases acts, 0
  {
    hide Keeps, Room, Enter, Rte, Handle;
    if acts == [] {
      assert Keeps(c, c, t) by { KeepsSelf(c, t); }
    } else {
      match acts[0] {
        case Work(c1) =>
          WorkSupervisor(c, c1, t);
          HandlerKeeps(c1, acts[1..], t);
          KeepsOn(c, c1, Run(c1, acts[1..]).value, t);
        case Nested(e, h) =>
          NestingReturns(c, e, h, t);
          var c1 := Handle(c, e, h).value;
          RestoredKeeps(c, e, t, c1);
          HandlerKeeps(c1, acts[1..], t);
          KeepsOn(c, c1, Run(c1, acts[1..]).value, t);
      }
    }
  }

  lemma KeepsSelf(c: Cpu, t: Tops)
    requires c.sr.s
    ensures Keeps(c, c, t)
  {
  }

  lemma WorkSupervisor(c: Cpu, c1: Cpu, t: Tops)
    requires Keeps(c, c1, t)
    ensures c1.sr.s
  {
  }

  lemma RestoredKeeps(c: Cpu, e: Ev, t: Tops, c1: Cpu)
    requires c.sr.s && Restored(c, e, t, Some(c1))
    ensures Keeps(c, c1, t) && c1.sr.s
  {
    hide Live;
  }

  /** For every exception, from either mode, either stack and any status register, and any properly nested handler of
    balanced code: the RTE restores the status register, all the stack pointers and everything on the stacks, and
    goes on at the stacked PC. */
  lemma {:induction false} NestingReturns(c: Cpu, e: Ev, h: seq<Act>, t: Tops)
    requires Room(c, e, t) && Balanced(Enter(c, e), h, t)
    ensures Restored(c, e, t, Handle(c, e, h))
    decreases h, 1
  {
    hide Keeps, Room, Rte, Enter, Stacked, Restored, Balanced, Run;
    if TwoFrames(c, e) { TwoFramesStack(c, e, t); } else { OneFrameStacks(c, e, t); }
    var c1 := Enter(c, e);
    StackedSupervisor(c, e, t, c1);
    HandlerKeeps(c1, h, t);
    ReturnRestores(c, e, t, c1, Run(c1, h).value);
  }

  lemma StackedSupervisor(c: Cpu, e: Ev, t: Tops, c1: Cpu)
    requires Stacked(c, e, t, c1)
    ensures c1.sr.s
  {
  }
}
