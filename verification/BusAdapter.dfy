/** The 16-bit bus adapter: any 1, 2 or 4-byte access as lane-selected sub-cycles of a 16-bit bus. */
module BusAdapter {
  import opened Memory

  /** A core request, held until its acknowledge. */
  datatype Req = Req(write: bool, instr: bool, size: Size, addr: Addr, data: Word, fc: FC)

  /** The core's and the bus target's inputs at a qualified edge. */
  datatype In = In(req: bool, q: Req, berr: bool, hi: Byte, lo: Byte)

  datatype BusState = Fetch | Idle | DataRead | DataWrite

  /** The registered bus outputs; strobes are active low. */
  datatype Pins = Pins(addr: Addr, hi: Byte, lo: Byte, nwr: bool, nuds: bool, nlds: bool, state: BusState,
                       longword: bool, fc: FC)

  datatype Regs = Regs(active: bool, write: bool, instr: bool, gap: bool, cur: Addr, left: nat, wsh: Word, rsh: Word,
                       ack: bool, rdata: Word, pins: Pins)

  // ---------------------------------------------------------------- one qualified edge

  function Consumed(a: Addr, left: nat): (n: nat)
    ensures 1 <= n <= 2 && (left > 0 ==> n <= left)
  {
    if a % 2 == 1 then 1 else if left >= 2 then 2 else 1
  }

  /** Write data left-aligned, to go out most significant byte first. */
  function LeftAligned(z: Size, w: Word): Word {
    match z case B => Word(w.b0, 0, 0, 0) case W => Word(w.b1, w.b0, 0, 0) case L => w
  }

  function ShiftOut(w: Word, n: nat): Word { if n == 2 then Word(w.b1, w.b0, 0, 0) else Word(w.b2, w.b1, w.b0, 0) }

  function ShiftIn(w: Word, a: Addr, left: nat, hi: Byte, lo: Byte): Word {
    if a % 2 == 1 then Word(w.b2, w.b1, w.b0, lo)
    else if left >= 2 then Word(w.b1, w.b0, hi, lo)
    else Word(w.b2, w.b1, w.b0, hi)
  }

  function Released(p: Pins): Pins { p.(state := Idle, nwr := true, nuds := true, nlds := true) }

  function Kind(write: bool, instr: bool): BusState {
    if instr then Fetch else if write then DataWrite else DataRead
  }

  /** A sub-cycle's request on the bus. */
  function Asserted(p: Pins, write: bool, instr: bool, a: Addr, left: nat, w: Word): Pins {
    var one := a % 2 == 1 || left < 2;
    p.(state := Kind(write, instr), nwr := !write, nuds := a % 2 == 1, nlds := a % 2 == 0 && left < 2,
       hi := w.b3, lo := if one then w.b3 else w.b2)
  }

  function Start(r: Regs, q: Req): Regs {
    var w := LeftAligned(q.size, q.data);
    Regs(true, q.write, q.instr, false, q.addr, Bytes(q.size), w, ZERO, false, r.rdata,
         Asserted(r.pins.(addr := q.addr, fc := q.fc, longword := q.size == L), q.write, q.instr, q.addr, Bytes(q.size), w))
  }

  /** The in-flight sub-cycle completes. */
  function Complete(r: Regs, i: In): Regs {
    var n := Consumed(r.cur, r.left);
    var sh := if r.write then r.rsh else ShiftIn(r.rsh, r.cur, r.left, i.hi, i.lo);
    var r0 := r.(ack := false, rsh := sh);
    if r.left <= n then
      r0.(active := false, gap := false, ack := true, rdata := if r.write then r.rdata else sh,
          pins := Released(r.pins).(longword := false))
    else
      r0.(cur := Plus(r.cur, n), left := r.left - n, wsh := ShiftOut(r.wsh, n), gap := true,
          pins := Released(r.pins).(addr := Plus(r.cur, n)))
  }

  function Next(r: Regs, i: In): Regs {
    if r.active && i.berr then
      r.(ack := false, active := false, gap := false, pins := Released(r.pins).(longword := false))
    else if !r.active then
      if i.req && !r.ack then Start(r, i.q) else r.(ack := false)
    else if r.gap then
      r.(ack := false, gap := false, pins := Asserted(r.pins, r.write, r.instr, r.cur, r.left, r.wsh))
    else Complete(r, i)
  }

  /** The adapter as its clocked block writes it, an idle bus coming out of reset. */
  class Adapter {
    var r: Regs

    constructor ()
      ensures Quiet(r) && !r.ack
    {
      r := Regs(false, false, false, false, 0, 0, ZERO, ZERO, false, ZERO, Pins(0, 0, 0, true, true, true, Idle, false, 0));
    }

    method Request()
      modifies this
      ensures r == old(r).(pins := Asserted(old(r).pins, old(r).write, old(r).instr, old(r).cur, old(r).left, old(r).wsh))
    {
      var one := r.cur % 2 == 1 || r.left < 2;
      var p := r.pins.(state := Kind(r.write, r.instr), nwr := !r.write);
      if r.cur % 2 == 1 {
        p := p.(nuds := true, nlds := false);
      } else {
        p := p.(nuds := false, nlds := r.left < 2);
      }
      r := r.(pins := p.(hi := r.wsh.b3, lo := if one then r.wsh.b3 else r.wsh.b2));
    }

    method Step(i: In)
      modifies this
      ensures r == Next(old(r), i)
    {
      if r.active && i.berr {
        r := r.(ack := false, active := false, gap := false, pins := Released(r.pins).(longword := false));
      } else if !r.active {
        if i.req && !r.ack {
          r := Regs(true, i.q.write, i.q.instr, false, i.q.addr, Bytes(i.q.size), LeftAligned(i.q.size, i.q.data), ZERO,
                    false, r.rdata, r.pins.(addr := i.q.addr, fc := i.q.fc, longword := i.q.size == L));
          Request();
        } else {
          r := r.(ack := false);
        }
      } else if r.gap {
        r := r.(ack := false, gap := false);
        Request();
      } else {
        var n := Consumed(r.cur, r.left);
        var sh := r.rsh;
        if !r.write { sh := ShiftIn(r.rsh, r.cur, r.left, i.hi, i.lo); }
        r := r.(ack := r.left <= n, rsh := sh, pins := Released(r.pins));
        if r.left <= n {
          r := r.(active := false, gap := false, rdata := if r.write then r.rdata else sh, pins := r.pins.(longword := false));
        } else {
          r := r.(cur := Plus(r.cur, n), left := r.left - n, wsh := ShiftOut(r.wsh, n), gap := true,
                  pins := r.pins.(addr := Plus(r.cur, n)));
        }
      }
    }
  }

  // ---------------------------------------------------------------- the 16-bit target

  function Even(a: Addr): Addr { a / 2 * 2 }

  /** The target's bytes after an edge: it writes the selected lanes of a write that completes. */
  ghost function Target(m: Mem, p: Pins, berr: bool): Mem {
    if p.state == Idle || p.nwr || berr then m
    else
      var m1: Mem := if p.nuds then m else m[Even(p.addr) := p.hi];
      if p.nlds then m1 else m1[Even(p.addr) + 1 := p.lo]
  }

  /** A read's selected lanes carry the target's bytes; a lane that is not selected may carry anything. */
  ghost predicate Honest(m: Mem, p: Pins, i: In) {
    p.state != Idle && p.nwr ==>
      (!p.nuds ==> i.hi == m[Even(p.addr)]) && (!p.nlds ==> i.lo == m[Even(p.addr) + 1])
  }

  ghost predicate Quiet(r: Regs) { !r.active && r.pins.state == Idle && r.pins.nwr && r.pins.nuds && r.pins.nlds }

  // ---------------------------------------------------------------- a whole transfer

  function StoreOf(q: Req): Store { Store(q.addr, q.size, q.data, q.fc) }

  /** Sub-cycles a request takes: long at an odd address is byte, word, byte. */
  function SubCycles(q: Req): nat {
    match q.size
    case B => 1
    case W => if q.addr % 2 == 1 then 2 else 1
    case L => if q.addr % 2 == 1 then 3 else 2
  }

  /** Bytes moved by the first `j` sub-cycles. */
  function Moved(q: Req, j: nat): (n: nat)
    ensures n <= Bytes(q.size)
  {
    if j == 0 then 0
    else
      var n := Moved(q, j - 1);
      if n == Bytes(q.size) then n else n + Consumed(Plus(q.addr, n), Bytes(q.size) - n)
  }

  lemma MovedIs(q: Req)
    ensures Moved(q, SubCycles(q)) == Bytes(q.size)
    ensures forall j :: 0 <= j < SubCycles(q) ==> Moved(q, j) < Bytes(q.size)
  {
    assert Moved(q, 0) == 0;
    assert Moved(q, 1) == Consumed(q.addr, Bytes(q.size));
    assert SubCycles(q) >= 2 ==> Moved(q, 2) == Moved(q, 1) + Consumed(Plus(q.addr, Moved(q, 1)), Bytes(q.size) - Moved(q, 1));
  }

  /** Byte `j` of a left-aligned word. */
  function FromTop(w: Word, j: nat): Byte
    requires j < 4
  {
    Lane(w, 3 - j)
  }

  /** `k` bytes of the request moved, the rest still to go: memory has those bytes of a store and no others, the read
    shifter has those bytes of a load and zeros above, and the bus shows the next sub-cycle, or is idle before it. */
  ghost predicate Moving(q: Req, m0: Mem, r: Regs, m: Mem, k: nat, gap: bool) {
    && r.active && !r.ack && r.gap == gap && r.write == q.write && r.instr == q.instr
    && k < Bytes(q.size) && r.left == Bytes(q.size) - k && r.cur == Plus(q.addr, k)
    && (forall j :: 0 <= j < Bytes(q.size) - k ==> FromTop(r.wsh, j) == StByte(StoreOf(q), k + j))
    && (q.write ==> m == Put(Flat(), m0, StoreOf(q), k))
    && (!q.write ==> m == m0 && GotBytes(q, m0, r.rsh, k))
    && r.pins.addr == r.cur && r.pins.fc == q.fc && r.pins.longword == (q.size == L)
    && (if gap then r.pins == Released(r.pins)
        else r.pins == Asserted(r.pins, r.write, r.instr, r.cur, r.left, r.wsh))
  }

  /** The word is the first `k` bytes of the operand, right-aligned, with zeros above. */
  ghost predicate GotBytes(q: Req, m: Mem, w: Word, k: nat) {
    forall j :: 0 <= j < 4 ==> Lane(w, j) == if j < k then m[Plus(q.addr, k - 1 - j)] else 0
  }

  /** What the acknowledge comes with. */
  ghost predicate Done(q: Req, m0: Mem, r: Regs, m: Mem) {
    && Quiet(r) && r.ack
    && (if q.write then m == Apply(Flat(), m0, StoreOf(q)) else m == m0 && GotBytes(q, m0, r.rdata, Bytes(q.size)))
  }

  lemma StartMoves(q: Req, r: Regs, m: Mem)
    requires Quiet(r)
    ensures Moving(q, m, Start(r, q), m, 0, false)
  {
  }

  lemma GapEnds(q: Req, m0: Mem, r: Regs, m: Mem, k: nat, i: In)
    requires Moving(q, m0, r, m, k, true) && !i.berr
    ensures Moving(q, m0, Next(r, i), m, k, false) && Target(m, r.pins, false) == m
  {
    hide GotBytes, Put, StByte;
  }

  lemma PutNext(m: Mem, s: Store, k: nat)
    requires k < Bytes(s.size)
    ensures Put(Flat(), m, s, k + 1) == Put(Flat(), m, s, k)[Plus(s.addr, k) := StByte(s, k)]
  {
    FlatIsFlat(s.fc, Plus(s.addr, k));
  }

  /** The selected lanes of a sub-cycle, as bytes at its own address and the next. */
  lemma TargetTakes(m: Mem, p: Pins, a: Addr, left: nat, w: Word)
    requires p == Asserted(p, true, p.state == Fetch, a, left, w) && p.addr == a
    ensures Target(m, p, false)
              == if Consumed(a, left) == 2 then m[a := w.b3][a + 1 := w.b2] else m[a := w.b3]
  {
    assert a % 2 == 0 ==> Even(a) == a;
    assert a % 2 == 1 ==> Even(a) + 1 == a;
  }

  lemma SubCycleWrites(q: Req, m0: Mem, r: Regs, m: Mem, k: nat)
    requires Moving(q, m0, r, m, k, false) && q.write
    ensures var n := k + Consumed(r.cur, r.left);
            n <= Bytes(q.size) && Target(m, r.pins, false) == Put(Flat(), m0, StoreOf(q), n)
  {
    hide GotBytes, Put, Target, StByte;
    var s := StoreOf(q);
    TargetTakes(m, r.pins, r.cur, r.left, r.wsh);
    assert FromTop(r.wsh, 0) == StByte(s, k);
    PutNext(m0, s, k);
    if Consumed(r.cur, r.left) == 2 {
      assert FromTop(r.wsh, 1) == StByte(s, k + 1);
      PutNext(m0, s, k + 1);
    }
  }

  lemma SubCycleReads(q: Req, m: Mem, r: Regs, k: nat, i: In)
    requires Moving(q, m, r, m, k, false) && !q.write && Honest(m, r.pins, i)
    ensures var n := k + Consumed(r.cur, r.left);
            n <= Bytes(q.size) && GotBytes(q, m, ShiftIn(r.rsh, r.cur, r.left, i.hi, i.lo), n)
  {
    var w := ShiftIn(r.rsh, r.cur, r.left, i.hi, i.lo);
    var c := Consumed(r.cur, r.left);
    forall j | 0 <= j < 4 ensures Lane(w, j) == if j < k + c then m[Plus(q.addr, k + c - 1 - j)] else 0 {
      if j >= c { assert Lane(w, j) == Lane(r.rsh, j - c); }
    }
  }

  lemma ShiftKeeps(q: Req, k: nat, w: Word, n: nat)
    requires 1 <= n <= 2 && k + n < Bytes(q.size)
    requires forall j :: 0 <= j < Bytes(q.size) - k ==> FromTop(w, j) == StByte(StoreOf(q), k + j)
    ensures forall j :: 0 <= j < Bytes(q.size) - k - n ==> FromTop(ShiftOut(w, n), j) == StByte(StoreOf(q), k + n + j)
  {
    hide StByte;
    forall j | 0 <= j < Bytes(q.size) - k - n
      ensures FromTop(ShiftOut(w, n), j) == StByte(StoreOf(q), k + n + j)
    {
      assert FromTop(ShiftOut(w, n), j) == FromTop(w, n + j);
    }
  }

  /** A sub-cycle takes its bytes over, whichever way they go. */
  lemma SubCycleBytes(q: Req, m0: Mem, r: Regs, m: Mem, k: nat, i: In)
    requires Moving(q, m0, r, m, k, false) && Honest(m, r.pins, i)
    ensures var n, m' := k + Consumed(r.cur, r.left), Target(m, r.pins, false);
            && n <= Bytes(q.size)
            && (q.write ==> m' == Put(Flat(), m0, StoreOf(q), n))
            && (!q.write ==> m' == m0 && GotBytes(q, m0, ShiftIn(r.rsh, r.cur, r.left, i.hi, i.lo), n))
  {
    hide GotBytes, Put, StByte, Target, ShiftIn, Honest;
    if q.write { SubCycleWrites(q, m0, r, m, k); }
    else {
      SubCycleReads(q, m, r, k, i);
      ReadsKeep(m, r.pins);
    }
  }

  lemma SubCycleContinues(q: Req, m0: Mem, r: Regs, m: Mem, k: nat, i: In)
    requires Moving(q, m0, r, m, k, false) && !i.berr && Honest(m, r.pins, i)
    requires k + Consumed(r.cur, r.left) < Bytes(q.size)
    ensures Moving(q, m0, Next(r, i), Target(m, r.pins, false), k + Consumed(r.cur, r.left), true)
  {
    hide GotBytes, Put, StByte, Target, ShiftIn, ShiftOut, Honest;
    var n := Consumed(r.cur, r.left);
    SubCycleBytes(q, m0, r, m, k, i);
    ShiftKeeps(q, k, r.wsh, n);
    assert Plus(Plus(q.addr, k), n) == Plus(q.addr, k + n);
  }

  /** A sub-cycle that completes ends the transfer, or leaves fewer bytes. */
  lemma SubCycleMoves(q: Req, m0: Mem, r: Regs, m: Mem, k: nat, i: In)
    requires Moving(q, m0, r, m, k, false) && !i.berr && Honest(m, r.pins, i)
    ensures var n := k + Consumed(r.cur, r.left);
            var m' := Target(m, r.pins, false);
            if n == Bytes(q.size) then Done(q, m0, Next(r, i), m')
            else n < Bytes(q.size) && Moving(q, m0, Next(r, i), m', n, true) && Next(r, i).left < r.left
  {
    hide GotBytes, Put, StByte, Target, ShiftIn, ShiftOut, Honest;
    SubCycleBytes(q, m0, r, m, k, i);
    if k + Consumed(r.cur, r.left) < Bytes(q.size) { SubCycleContinues(q, m0, r, m, k, i); }
  }

  lemma ReadsKeep(m: Mem, p: Pins)
    requires p.nwr
    ensures Target(m, p, false) == m
  {
  }

  // ---------------------------------------------------------------- every run

  /** The adapter and its target. */
  ghost function After(r: Regs, m: Mem, ins: seq<In>, t: nat): (Regs, Mem)
    requires t <= |ins|
  {
    if t == 0 then (r, m)
    else
      var (r1, m1) := After(r, m, ins, t - 1);
      (Next(r1, ins[t - 1]), Target(m1, r1.pins, r1.active && ins[t - 1].berr))
  }

  /** The core holds its request; the target answers with its own bytes; no bus error before edge `e`. */
  ghost predicate Transfer(r: Regs, m: Mem, q: Req, ins: seq<In>, e: nat)
    requires e <= |ins|
  {
    && Quiet(r) && !r.ack && e > 0 && ins[0].req && ins[0].q == q
    && (forall t :: 0 < t < e ==> !ins[t].berr)
    && (forall t :: 0 <= t < e ==> Honest(After(r, m, ins, t).1, After(r, m, ins, t).0.pins, ins[t]))
  }

  /** Edges from the one that takes the request to the one that raises the acknowledge: a sub-cycle and an idle clock
    in turn, with no idle clock after the last. */
  function Edges(q: Req): nat { 2 * SubCycles(q) }

  /** After `t` edges, odd: sub-cycle (t-1)/2 is on the bus; even: the bus is idle between two. */
  lemma {:induction false} MovesOn(r: Regs, m: Mem, q: Req, ins: seq<In>, t: nat)
    requires 0 < t < Edges(q) && t <= |ins| && Transfer(r, m, q, ins, t)
    ensures var (r1, m1) := After(r, m, ins, t); Moving(q, m, r1, m1, Moved(q, t / 2), t % 2 == 0)
  {
    hide Moving, Honest, Next, Target;
    if t == 1 {
      assert After(r, m, ins, 0) == (r, m);
      FirstEdge(q, r, m, ins[0]);
    } else {
      MovesOn(r, m, q, ins, t - 1);
      MovedIs(q);
      var (r1, m1) := After(r, m, ins, t - 1);
      var i, k := ins[t - 1], Moved(q, (t - 1) / 2);
      MovingFacts(q, m, r1, m1, k, t % 2 == 1);
      if t % 2 == 1 {
        GapEnds(q, m, r1, m1, k, i);
        assert (t - 1) / 2 == t / 2;
      } else {
        SubCycleMoves(q, m, r1, m1, k, i);
        assert t / 2 - 1 == (t - 1) / 2;
      }
    }
  }

  lemma FirstEdge(q: Req, r: Regs, m: Mem, i: In)
    requires Quiet(r) && !r.ack && i.req && i.q == q
    ensures Next(r, i) == Start(r, q) && Target(m, r.pins, false) == m
    ensures Moving(q, m, Next(r, i), m, 0, false)
  {
    StartMoves(q, r, m);
  }

  lemma MovingFacts(q: Req, m0: Mem, r: Regs, m: Mem, k: nat, gap: bool)
    requires Moving(q, m0, r, m, k, gap)
    ensures r.active && r.cur == Plus(q.addr, k) && r.left == Bytes(q.size) - k && !r.ack
  {
  }

  /** What the bus shows with `k` bytes moved: in a sub-cycle its kind, direction and function code and the address of its
    first byte, an even byte on the upper lane and an odd one on the lower; between two, nothing. */
  ghost predicate Shows(q: Req, p: Pins, k: nat, gap: bool) {
    && k < Bytes(q.size)
    && if gap then p.state == Idle && p.nwr && p.nuds && p.nlds
       else
         && p.state == (if q.instr then Fetch else if q.write then DataWrite else DataRead)
         && p.addr == (q.addr + k) % M32 && p.fc == q.fc && (p.longword <==> q.size == L) && (p.nwr <==> !q.write)
         && (p.nuds <==> p.addr % 2 == 1) && (p.nlds <==> p.addr % 2 == 0 && k + 1 == Bytes(q.size))
         && (q.write && !p.nuds ==> p.hi == StByte(StoreOf(q), k))
         && (q.write && !p.nlds ==> p.lo == StByte(StoreOf(q), if p.nuds then k else k + 1))
  }

  lemma MovingShows(q: Req, m0: Mem, r: Regs, m: Mem, k: nat, gap: bool)
    requires Moving(q, m0, r, m, k, gap)
    ensures Shows(q, r.pins, k, gap)
  {
    hide Put, StByte, GotBytes, Lane;
    assert FromTop(r.wsh, 0) == r.wsh.b3 by { TopByte(r.wsh); }
    if !gap && k + 1 < Bytes(q.size) { assert FromTop(r.wsh, 1) == r.wsh.b2 by { TopByte(r.wsh); } }
  }

  lemma TopByte(w: Word)
    ensures FromTop(w, 0) == w.b3 && FromTop(w, 1) == w.b2
  {
  }

  lemma BusShows(r: Regs, m: Mem, q: Req, ins: seq<In>, t: nat)
    requires 0 < t < Edges(q) && t <= |ins| && Transfer(r, m, q, ins, t)
    ensures Shows(q, After(r, m, ins, t).0.pins, Moved(q, t / 2), t % 2 == 0)
  {
    hide After, Moved, Moving, Shows, Transfer;
    MovesOn(r, m, q, ins, t);
    var (r1, m1) := After(r, m, ins, t);
    MovingShows(q, m, r1, m1, Moved(q, t / 2), t % 2 == 0);
  }

  /** Every request, at any alignment: not acknowledged early, and then with memory as the whole store leaves it, or
    with the operand's bytes right-aligned. */
  lemma TransferIsWhole(r: Regs, m: Mem, q: Req, ins: seq<In>)
    requires |ins| == Edges(q) && Transfer(r, m, q, ins, Edges(q))
    ensures forall t :: 0 <= t < Edges(q) ==> !After(r, m, ins, t).0.ack
    ensures var (r1, m1) := After(r, m, ins, Edges(q)); Done(q, m, r1, m1)
  {
    hide Moving, Honest, Next, Target, Done;
    forall t | 0 <= t < Edges(q) ensures !After(r, m, ins, t).0.ack {
      if t > 0 {
        MovesOn(r, m, q, ins, t);
        var (r1, m1) := After(r, m, ins, t);
        MovingFacts(q, m, r1, m1, Moved(q, t / 2), t % 2 == 0);
      }
    }
    var e := Edges(q) - 1;
    MovesOn(r, m, q, ins, e);
    MovedIs(q);
    var (r1, m1) := After(r, m, ins, e);
    MovingFacts(q, m, r1, m1, Moved(q, e / 2), false);
    SubCycleMoves(q, m, r1, m1, Moved(q, e / 2), ins[e]);
    assert e / 2 == SubCycles(q) - 1;
  }

  /** A bus error at any edge after the first ends the transfer with no acknowledge: the sub-cycle it falls on writes
    nothing, and those before it have written just their bytes. */
  lemma BusErrorAborts(r: Regs, m: Mem, q: Req, ins: seq<In>, t: nat)
    requires 0 < t < Edges(q) && t < |ins| && Transfer(r, m, q, ins, t) && ins[t].berr
    ensures var (r1, m1) := After(r, m, ins, t + 1);
            && Quiet(r1) && !r1.ack
            && m1 == if q.write then Put(Flat(), m, StoreOf(q), Moved(q, t / 2)) else m
  {
    MovesOn(r, m, q, ins, t);
    hide After, Put, StByte;
  }

  /** The acknowledge lasts one edge when the core drops its request with it. */
  lemma OneAcknowledge(q: Req, m0: Mem, r: Regs, m: Mem, i: In)
    requires Done(q, m0, r, m)
    ensures Quiet(Next(r, i)) && !Next(r, i).ack && Target(m, r.pins, false) == m
  {
    hide Apply, GotBytes;
  }
}
