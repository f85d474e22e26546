/** The prefetch queue and its branch target buffer, as one transition: what ID takes leaves the head,
  what memory answers joins the tail, and the next fetch goes out, perhaps at a guessed target. */
module Prefetch {
  import opened Memory

  const QN: nat := 6
  const BTB_N: nat := 16

  type Half = w: nat | w < 0x1_0000
  type A31 = a: nat | a < 0x8000_0000

  const NOP: Half := 0x4E71

  /** A queued word: poisoned, a predicted branch's last word, the second word of its fetch. */
  datatype QWord = QWord(w: Half, err: bool, m: bool, s: bool)

  datatype Entry = Entry(v: bool, key: A31, s: bool, slot: bool, tgt: A31)

  datatype FCfg = FCfg(longAny: bool, btb: bool)

  datatype FRegs = FRegs(qpc: Addr, fpc: Addr, infl: bool, fdrop: bool, fFa: Addr, inflN: nat, running: bool,
                         hold: bool, pstop: bool, fs: bool, mV: bool, mTg: A31, mF: A31, mEnd: Addr,
                         inflP: bool, inflSlot: bool)

  datatype Fetcher = Fetcher(q: seq<QWord>, r: FRegs, btb: seq<Entry>)

  datatype Redirect = Redirect(pc: Addr, s: bool)
  datatype BtbOp = Keep | Clear | Write(val: bool, fa: A31, slot: bool, tgt: A31)

  datatype FIn = FIn(redirect: Option<Redirect>, redirectHold: bool, fetchHold: bool, consume: nat,
                     gnt: bool, ack: bool, w0: Half, w1: Half, err: bool, op: BtbOp)

  /** Byte address of a 31-bit word address. */
  function Dbl(a: A31): Addr { 2 * a }

  function Want(c: FCfg, fa: Addr): (n: nat)
    ensures 1 <= n <= 2
  {
    if c.longAny || fa / 2 % 2 == 0 then 2 else 1
  }

  predicate ValidF(s: Fetcher) { |s.btb| == BTB_N && |s.q| <= QN }

  /** Words of the fetch in flight that will join the queue. */
  function Coming(r: FRegs): nat { if r.infl && !r.fdrop then r.inflN else 0 }

  function Ix(a: A31): (k: nat)
    ensures k < BTB_N
  {
    a % BTB_N
  }

  /** The lookup on the sequential fetch address; one prediction at a time. */
  function Predict(c: FCfg, s: Fetcher, i: FIn): Option<Entry>
    requires ValidF(s)
  {
    var e := s.btb[Ix(s.r.fpc / 2)];
    if c.btb && i.redirect.None? && !s.r.mV && e.v && e.key == s.r.fpc / 2 && e.s == s.r.fs
       && (!e.slot || c.longAny || s.r.fpc / 2 % 2 == 0)
    then Some(e) else None
  }

  predicate Issues(c: FCfg, s: Fetcher, i: FIn) {
    var redir := i.redirect.Some?;
    var left := if redir || |s.q| < i.consume then 0 else |s.q| - i.consume;
    && (s.r.running || redir) && !s.r.hold && !(redir && i.redirectHold) && !(s.r.pstop && !redir) && !i.fetchHold
    && (!s.r.infl || i.ack)
    && left + (if redir then 0 else Coming(s.r)) + 2 <= QN
    && i.gnt
  }

  /** ID takes `n` words from the head; taking a marked word jumps to the prediction's target. */
  function Pop(c: FCfg, s: Fetcher, n: nat): Fetcher
    requires n <= 2 && n <= |s.q|
  {
    var m0 := |s.q| >= 1 && s.q[0].m;
    var m1 := |s.q| >= 2 && s.q[1].m;
    var pc := if c.btb && m0 && n != 0 then Plus(Dbl(s.r.mTg), if n == 2 then 2 else 0)
              else if c.btb && m1 && n == 2 then Dbl(s.r.mTg)
              else Plus(s.r.qpc, 2 * n);
    s.(q := s.q[n..], r := s.r.(qpc := pc, mV := s.r.mV && !((m0 && n != 0) || (m1 && n == 2))))
  }

  /** The words an answer puts in the queue: of a predicted fetch, those up to the branch's last word. */
  function Arrivals(r: FRegs, i: FIn): seq<QWord> {
    [QWord(if i.err then NOP else i.w0, i.err, r.inflP && !r.inflSlot, false)]
    + if r.inflN == 2 && !(r.inflP && !r.inflSlot) then [QWord(if i.err then NOP else i.w1, i.err, r.inflP, true)] else []
  }

  /** The fetch in flight answers: its words join the queue, unless a redirect came after it. */
  function Receive(s: Fetcher, i: FIn): Fetcher {
    if !(s.r.infl && i.ack) then s
    else if s.r.fdrop then s.(r := s.r.(infl := false, fdrop := false))
    else s.(q := s.q + Arrivals(s.r, i), r := s.r.(infl := false, pstop := s.r.pstop || i.err))
  }

  /** The next fetch goes out, followed by the target's if it is predicted. */
  function Launch(c: FCfg, s: Fetcher, p: Option<Entry>): Fetcher {
    var fa := s.r.fpc;
    var n := Want(c, fa);
    var r := s.r.(infl := true, fdrop := false, fFa := fa, inflN := n, inflP := p.Some?);
    if p.Some? then
      s.(r := r.(inflSlot := p.value.slot, fpc := Dbl(p.value.tgt), mV := true, mTg := p.value.tgt, mF := fa / 2,
                 mEnd := Plus(fa, if p.value.slot then 4 else 2)))
    else s.(r := r.(fpc := Plus(fa, 2 * n)))
  }

  /** After a redirect nothing old is left: no queued word, no prediction, and no answer that is still to come. */
  function Restart(s: Fetcher, d: Redirect, i: FIn): Fetcher {
    s.(q := [], r := s.r.(qpc := d.pc, fpc := d.pc, running := true, pstop := false, fs := d.s, mV := false,
                          infl := s.r.infl && !i.ack, fdrop := s.r.infl && !i.ack))
  }

  function NextBtb(c: FCfg, s: Fetcher, i: FIn): seq<Entry> {
    if !c.btb then s.btb
    else match i.op
      case Keep => s.btb
      case Clear => seq(|s.btb|, k requires 0 <= k < |s.btb| => s.btb[k].(v := false))
      case Write(val, fa, slot, tgt) =>
        if Ix(fa) < |s.btb| then s.btb[Ix(fa) := Entry(val, fa, s.r.fs, slot, tgt)] else s.btb
  }

  /** What the clock does before the next fetch goes out. */
  function Settle(c: FCfg, s: Fetcher, i: FIn): Fetcher
    requires i.consume <= 2 && i.consume <= |s.q|
  {
    if i.redirect.Some? then Restart(s, i.redirect.value, i) else Receive(Pop(c, s, i.consume), i)
  }

  function NextF(c: FCfg, s: Fetcher, i: FIn): Fetcher
    requires ValidF(s) && i.consume <= 2 && i.consume <= |s.q|
  {
    var t := Settle(c, s, i);
    var u := if Issues(c, s, i) then Launch(c, t, Predict(c, s, i)) else t;
    u.(btb := NextBtb(c, s, i), r := u.r.(hold := i.redirect.Some? && i.redirectHold))
  }

  // ---------------------------------------------------------------- the code ranges

  datatype Range = Range(lo: Addr, hi: Addr)

  /** The two address ranges the held words are reported to lie in: the path to the predicted branch, and past it. */
  function Path(r: FRegs): Range { Range(r.qpc, if r.mV then r.mEnd else r.fpc) }

  function Beyond(r: FRegs): Range { if r.mV then Range(Dbl(r.mTg), r.fpc) else Range(0, 0) }

  predicate InRange(a: Addr, g: Range) { g.lo <= a < g.hi }

  /** Words of the fetch in flight that will be queued: of a predicted one, up to the branch's last. */
  function Joining(r: FRegs): nat { if !Live(r) then 0 else if r.inflP && !r.inflSlot then 1 else r.inflN }

  // ---------------------------------------------------------------- the stream

  /** "No word is marked": beyond any place in the queue or after it. */
  const NO: nat := 99

  /** The queue's one marked word is word `k`, or `k` is NO and none is. */
  predicate MarkedAt(q: seq<QWord>, k: nat) {
    (k == NO || (k < |q| && q[k].m)) && forall i :: 0 <= i < |q| && i != k ==> !q[i].m
  }

  /** Where the stream's word `i` comes from, counted from the head, when word `k` is marked. */
  function StreamAddr(r: FRegs, k: nat, i: nat): Addr {
    if i <= k then Plus(r.qpc, 2 * i) else Plus(Dbl(r.mTg), 2 * (i - k - 1))
  }

  predicate Live(r: FRegs) { r.infl && !r.fdrop }

  /** The queued words are the code's, in order from the head's address and through the marked jump; the
    fetch in flight and the next one continue them.  A poisoned word reads as NOP. */
  ghost predicate StreamK(code: Addr -> Half, s: Fetcher, k: nat) {
    var r := s.r;
    var n := |s.q|;
    && MarkedAt(s.q, k) && n + Coming(r) <= QN && (r.infl ==> 1 <= r.inflN <= 2)
    && (forall i :: 0 <= i < n ==> s.q[i].w == if s.q[i].err then NOP else code(StreamAddr(r, k, i)))
    && (Live(r) ==> r.fFa == StreamAddr(r, k, n))
    && (r.mV <==> k != NO || (Live(r) && r.inflP))
    && (k != NO ==> !(Live(r) && r.inflP) && r.mEnd == Plus(r.qpc, 2 * (k + 1)))
    && (Live(r) && r.inflP ==>
          && r.fpc == Dbl(r.mTg) && (r.inflSlot ==> r.inflN == 2)
          && r.mEnd == Plus(r.qpc, 2 * (n + if r.inflSlot then 2 else 1)))
    && (!(Live(r) && r.inflP) ==> r.fpc == StreamAddr(r, k, n + Coming(r)))
  }

  ghost predicate Stream(code: Addr -> Half, s: Fetcher) { exists k :: StreamK(code, s, k) }

  /** Memory answers a fetch with the code at its address. */
  ghost predicate Honest(code: Addr -> Half, s: Fetcher, i: FIn) {
    && i.consume <= 2 && i.consume <= |s.q|
    && (Live(s.r) && i.ack && !i.err ==>
          i.w0 == code(s.r.fFa) && (s.r.inflN == 2 ==> i.w1 == code(Plus(s.r.fFa, 2))))
  }
}
