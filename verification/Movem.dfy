/** EA-fetch's MOVEM sequencer: one micro-op a register, reads issued ahead, a loaded value buffered while EX
  stalls, the base register written last. */
module Movem {
  import opened Memory

  /** D0-D7, A0-A6, and 15 for the active stack pointer. */
  type Reg = r: nat | r < 16
  type Mask = s: seq<bool> | |s| == 16 witness seq(16, _ => false)
  type RegFile = s: seq<Word> | |s| == 16 witness seq(16, _ => ZERO)

  /** `Indexed` is mode 6 and the PC-indexed mode 7/3; `PcDisp`, mode 7/2, and `Abs` name the address itself. */
  datatype Mode = Ind | Post | Pre | Disp(d: Addr) | Abs(a: Addr) | PcDisp(a: Addr) | Indexed

  /** `base` is the EA's address register, where it has one. */
  datatype Instr = Instr(ld: bool, word: bool, list: Mask, mode: Mode, base: Option<Reg>, fc: FC)

  predicate ValidInstr(i: Instr) {
    && (i.mode.Ind? || i.mode.Post? || i.mode.Pre? || i.mode.Disp? ==> i.base.Some?)
    && (i.mode.Post? ==> i.ld) && (i.mode.Pre? ==> !i.ld)
  }

  // ---------------------------------------------------------------- register values as numbers

  function Num(w: Word): Addr { ((w.b3 * 256 + w.b2) * 256 + w.b1) * 256 + w.b0 }

  function ToWord(a: Addr): (w: Word)
    ensures Num(w) == a
  {
    var hi := a / 0x1_0000;
    Word(hi / 256, hi % 256, a % 0x1_0000 / 256, a % 256)
  }

  lemma NumIsOne(v: Word, w: Word)
    ensures Num(v) == Num(w) ==> v == w
  {
    LastDigit((v.b3 * 256 + v.b2) * 256 + v.b1, v.b0, (w.b3 * 256 + w.b2) * 256 + w.b1, w.b0);
    LastDigit(v.b3 * 256 + v.b2, v.b1, w.b3 * 256 + w.b2, w.b1);
    LastDigit(v.b3, v.b2, w.b3, w.b2);
  }

  lemma LastDigit(x: nat, b: Byte, y: nat, c: Byte)
    ensures x * 256 + b == y * 256 + c ==> x == y && b == c
  {
  }

  function Minus(a: Addr, k: nat): Addr { (a - k) % M32 }

  lemma MinusMinus(a: Addr, i: nat, j: nat)
    ensures Minus(Minus(a, i), j) == Minus(a, i + j)
  {
    ModAdd(a - i, 0 - (j as int));
  }

  lemma MinusPlus(a: Addr, k: nat)
    ensures Plus(Minus(a, k), k) == a
  {
    ModAdd(a - k, k);
  }

  function Sext(w: Word): Word {
    var s: Byte := if w.b1 >= 128 then 255 else 0;
    Word(s, s, w.b1, w.b0)
  }

  function Step(i: Instr): nat { if i.word then 2 else 4 }

  function SizeOf(i: Instr): Size { if i.word then W else L }

  /** What a load makes of the answer. */
  function Loaded(i: Instr, w: Word): Word { if i.word then Sext(w) else w }

  // ---------------------------------------------------------------- the register list

  /** The lowest set bit, 0 of none. */
  function Lsb(m: Mask): (k: Reg)
    ensures true in m ==> m[k] && forall j :: 0 <= j < k ==> !m[j]
  {
    LsbFrom(m, 0)
  }

  function LsbFrom(m: Mask, k: nat): (r: Reg)
    requires k <= 16
    ensures true in m[k..] ==> k <= r && m[r] && forall j :: k <= j < r ==> !m[j]
    decreases 16 - k
  {
    if k == 16 then 0 else if m[k] then k else LsbFrom(m, k + 1)
  }

  function Clear(m: Mask, k: Reg): Mask { m[k := false] }

  /** At most one bit set. */
  predicate One(m: Mask) { true !in Clear(m, Lsb(m)) }

  /** The register a mask bit names: reversed for -(An). */
  function RegOf(i: Instr, k: Reg): Reg { if i.mode.Pre? then 15 - k else k }

  // ---------------------------------------------------------------- one clock

  /** A micro-op for EX and WB: a register write, a store, the base register's write, and its being the last. */
  datatype Uop = Uop(w: Option<(Reg, Word)>, st: Option<Store>, u: Option<(Reg, Word)>, last: bool)

  /** The sequencer's registers; `pend` and `rda` are the outstanding read's. */
  datatype Seq = Seq(active: bool, mask: Mask, k: Reg, addr: Addr, empty: bool, tail: bool, rreg: Reg, rlast: bool,
                     have: bool, hdata: Word, hreg: Reg, hlast: bool, bv: bool, bval: Word, pend: bool, rda: Addr)

  /** EX cannot take a micro-op; the outstanding read is answered, with what; EX writes the register to store, of which
    the register file gives `reg`. */
  datatype In = In(stall: bool, ack: bool, data: Word, sblk: bool, reg: Word)

  datatype Steps = Steps(issue: bool, disp: bool, fin: bool, fromBuf: bool, toBuf: bool, empty: bool, tail: bool, tailu: bool)

  const NOTHING: Steps := Steps(false, false, false, false, false, false, false, false)

  /** What this clock does.  `mt`: an -(An) store updates An in a micro-op of its own. */
  function Decide(i: Instr, mt: bool, r: Seq, e: In): Steps {
    var cap := r.pend && e.ack;
    var tailreq := mt && i.mode.Pre?;
    if r.tail then
      if e.stall then NOTHING else NOTHING.(disp := true, fin := true, empty := true, tailu := true)
    else if r.empty then
      if e.stall then NOTHING else NOTHING.(disp := true, fin := true, empty := true)
    else if i.ld then
      var d :=
        if r.have then if e.stall then NOTHING else NOTHING.(disp := true, fromBuf := true, fin := r.hlast)
        else if cap then if e.stall then NOTHING.(toBuf := true) else NOTHING.(disp := true, fin := r.rlast)
        else NOTHING;
      d.(issue := true in r.mask && (!r.pend || cap) && !r.have && !e.stall)
    else if !e.stall && true in r.mask && !e.sblk then
      NOTHING.(disp := true, fin := One(r.mask) && !tailreq, tail := One(r.mask) && tailreq)
    else NOTHING
  }

  function DReg(i: Instr, r: Seq, s: Steps): Reg {
    if i.ld then if s.fromBuf then r.hreg else r.rreg else RegOf(i, r.k)
  }

  function DVal(i: Instr, r: Seq, s: Steps, e: In): Word {
    if i.ld then if s.fromBuf then r.hdata else e.data
    else
      var v := e.reg;
      if i.mode.Pre? && Some(RegOf(i, r.k)) == i.base then ToWord(Minus(Num(v), Step(i))) else v
  }

  /** The base register's own value is on this micro-op. */
  predicate BaseNow(i: Instr, r: Seq, s: Steps) { i.ld && Some(DReg(i, r, s)) == i.base && s.disp && !s.empty }

  function Update(i: Instr, r: Seq, s: Steps, e: In): Word {
    if r.tail then ToWord(Plus(r.addr, Step(i)))
    else if i.mode.Pre? || i.mode.Post? then ToWord(r.addr)
    else if BaseNow(i, r, s) then Loaded(i, DVal(i, r, s, e))
    else r.bval
  }

  function StoreAt(i: Instr, a: Addr, v: Word): Store {
    Store(a, SizeOf(i), if i.word then Word(0, 0, v.b1, v.b0) else v, i.fc)
  }

  function UopOf(i: Instr, r: Seq, s: Steps, e: In): Uop {
    var v := DVal(i, r, s, e);
    var upd := i.base.Some? && (i.mode.Pre? || i.mode.Post? || r.bv || BaseNow(i, r, s));
    Uop(if s.empty || !i.ld || Some(DReg(i, r, s)) == i.base then None else Some((DReg(i, r, s), Loaded(i, v))),
        if s.empty || i.ld then None else Some(StoreAt(i, r.addr, v)),
        if s.fin && upd && (!s.empty || s.tailu) then Some((i.base.value, Update(i, r, s, e))) else None,
        s.fin)
  }

  function Move(i: Instr, r: Seq): Seq {
    var m := Clear(r.mask, r.k);
    r.(mask := m, k := Lsb(m), addr := if i.mode.Pre? then Minus(r.addr, Step(i)) else Plus(r.addr, Step(i)))
  }

  /** The read port, the register its answer is for, and the mask and address of what went. */
  function Issued(i: Instr, r: Seq, s: Steps, ack: bool): Seq {
    var r1 := r.(pend := if s.issue then true else r.pend && !ack, rda := if s.issue then r.addr else r.rda);
    var r2 := if s.issue then Move(i, r1.(rreg := RegOf(i, r.k), rlast := One(r.mask))) else r1;
    if !i.ld && s.disp then Move(i, r2) else r2
  }

  /** A loaded value into, or out of, the buffer. */
  function Buffered(r: Seq, s: Steps, data: Word, n: Seq): Seq {
    var n1 := if s.toBuf then n.(have := true, hdata := data, hreg := r.rreg, hlast := r.rlast) else n;
    if s.fromBuf then n1.(have := false) else n1
  }

  function Ended(s: Steps, base: Option<Word>, n: Seq): Seq {
    var n1 := if base.Some? && !s.fin then n.(bv := true, bval := base.value) else n;
    if s.fin then n1.(empty := false, tail := false, active := false)
    else if s.tail then n1.(tail := true) else n1
  }

  function NextSeq(i: Instr, mt: bool, r: Seq, e: In): Seq {
    var s := Decide(i, mt, r, e);
    var base := if BaseNow(i, r, s) then Some(Loaded(i, DVal(i, r, s, e))) else None;
    Ended(s, base, Buffered(r, s, e.data, Issued(i, r, s, e.ack)))
  }

  function StartSeq(r: Seq, i: Instr, ea: Addr): Seq {
    r.(active := true, mask := i.list, k := Lsb(i.list), empty := true !in i.list, addr := ea, have := false, bv := false,
       tail := false, pend := false)
  }

  /** The sequencer as the clocked block writes it. */
  class Sequencer {
    var r: Seq

    constructor ()
      ensures !r.active
    {
      var none := seq(16, _ => false);
      r := Seq(false, none, 0, 0, false, false, 0, false, false, ZERO, 0, false, false, ZERO, false, 0);
    }

    method Start(i: Instr, ea: Addr)
      modifies this
      ensures r == StartSeq(old(r), i, ea)
    {
      r := r.(active := true, mask := i.list, k := Lsb(i.list), empty := true !in i.list, addr := ea);
      r := r.(have := false, bv := false, tail := false, pend := false);
    }

    /** A register goes: its bit leaves the mask and the address moves on. */
    static method Advance(i: Instr, r: Seq) returns (n: Seq)
      ensures n == Move(i, r)
    {
      var m := Clear(r.mask, r.k);
      var a := Plus(r.addr, Step(i));
      if i.mode.Pre? { a := Minus(r.addr, Step(i)); }
      n := r.(mask := m, k := Lsb(m), addr := a);
    }

    static method Issue(i: Instr, r: Seq, s: Steps, ack: bool) returns (n: Seq)
      ensures n == Issued(i, r, s, ack)
    {
      hide Move;
      n := r.(pend := r.pend && !ack);
      if s.issue {
        n := r.(pend := true, rda := r.addr, rreg := RegOf(i, r.k), rlast := One(r.mask));
        n := Advance(i, n);
      }
      if !i.ld && s.disp { n := Advance(i, n); }
    }

    static method Settle(r: Seq, s: Steps, data: Word, base: Option<Word>, n0: Seq) returns (n: Seq)
      ensures n == Ended(s, base, Buffered(r, s, data, n0))
    {
      n := n0;
      if s.toBuf { n := n.(have := true, hdata := data, hreg := r.rreg, hlast := r.rlast); }
      if s.fromBuf { n := n.(have := false); }
      if base.Some? && !s.fin { n := n.(bv := true, bval := base.value); }
      if s.fin { n := n.(empty := false, tail := false, active := false); }
      else if s.tail { n := n.(tail := true); }
    }

    method Clock(i: Instr, mt: bool, e: In) returns (u: Option<Uop>)
      modifies this
      ensures r == NextSeq(i, mt, old(r), e)
      ensures u == var s := Decide(i, mt, old(r), e); if s.disp then Some(UopOf(i, old(r), s, e)) else None
    {
      hide Decide, UopOf, Lsb, One, DVal, Loaded, BaseNow, Issued, Buffered, Ended;
      var s := Decide(i, mt, r, e);
      u := if s.disp then Some(UopOf(i, r, s, e)) else None;
      var base := if BaseNow(i, r, s) then Some(Loaded(i, DVal(i, r, s, e))) else None;
      var n := Issue(i, r, s, e.ack);
      r := Settle(r, s, e.data, base, n);
    }
  }

  // ---------------------------------------------------------------- what should go out

  function Count(m: seq<bool>): nat { if m == [] then 0 else (if m[0] then 1 else 0) + Count(m[1..]) }

  lemma {:induction false} CountDrops(m: seq<bool>, k: nat)
    requires k < |m| && m[k]
    ensures Count(m[k := false]) == Count(m) - 1
  {
    if k > 0 {
      CountDrops(m[1..], k - 1);
      assert m[k := false][1..] == m[1..][k - 1 := false];
    } else {
      assert m[0 := false][1..] == m[1..];
    }
  }

  /** The mask bits in transfer order. */
  function Listed(m: Mask): (l: seq<Reg>)
    decreases Count(m)
  {
    if true !in m then []
    else
      CountDrops(m, Lsb(m));
      [Lsb(m)] + Listed(Clear(m, Lsb(m)))
  }

  /** The address of transfer `k`. */
  function AddrOf(i: Instr, ea: Addr, k: nat): Addr {
    if i.mode.Pre? then Minus(ea, k * Step(i)) else Plus(ea, k * Step(i))
  }

  /** The bytes at an address, as a load leaves them in a register. */
  ghost function MemValue(i: Instr, x: Pages, m: Mem, a: Addr): Word {
    var b := (k: nat) => m[Phys(x, i.fc, Plus(a, k))];
    Loaded(i, if i.word then Word(0, 0, b(0), b(1)) else Word(b(0), b(1), b(2), b(3)))
  }

  /** The value stored for a register: the base of an -(An) list as first decremented. */
  function StoreValue(i: Instr, rf: RegFile, r: Reg): Word {
    if i.mode.Pre? && Some(r) == i.base then ToWord(Minus(Num(rf[r]), Step(i))) else rf[r]
  }

  /** What the base register ends as: past the last operand, or the list's own value for it. */
  ghost function BaseEnd(i: Instr, x: Pages, m: Mem, ea: Addr): Option<Word>
    requires i.base.Some?
  {
    var l := Listed(i.list);
    if l == [] then None
    else if i.mode.Post? then Some(ToWord(AddrOf(i, ea, |l|)))
    else if i.mode.Pre? then Some(ToWord(AddrOf(i, ea, |l| - 1)))
    else if i.ld && i.list[i.base.value] then Some(MemValue(i, x, m, AddrOf(i, ea, Place(l, i.base.value))))
    else None
  }

  /** Where a register is in the list. */
  function Place(l: seq<Reg>, r: Reg): (k: nat)
    ensures r in l ==> k < |l| && l[k] == r
  {
    if l == [] || l[0] == r then 0 else 1 + Place(l[1..], r)
  }

  function PlanLength(i: Instr, mt: bool): nat {
    var n := |Listed(i.list)|;
    if n == 0 then 1 else if mt && i.mode.Pre? then n + 1 else n
  }

  /** Micro-op `k` of the instruction: one register each in order, the base register's write on the last. */
  ghost function PlanAt(i: Instr, mt: bool, x: Pages, rf: RegFile, m: Mem, ea: Addr, k: nat): Uop {
    var l := Listed(i.list);
    var last := k + 1 == PlanLength(i, mt);
    var u := if last && i.base.Some? then
               match BaseEnd(i, x, m, ea) { case Some(v) => Some((i.base.value, v)) case None => None }
             else None;
    if k >= |l| then Uop(None, None, u, last)
    else
      var r := RegOf(i, l[k]);
      if i.ld then Uop(if Some(r) == i.base then None else Some((r, MemValue(i, x, m, AddrOf(i, ea, k)))), None, u, last)
      else Uop(None, Some(StoreAt(i, AddrOf(i, ea, k), StoreValue(i, rf, r))), u, last)
  }
}
