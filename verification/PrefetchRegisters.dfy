/** The fetch stage's registers and its clocked block: the six-word queue shifted and appended to, and the
  branch target buffer's sixteen entries, proved against `Prefetch.NextF`. */
module PrefetchRegisters {
  import opened Memory
  import opened Prefetch

  const EMPTY: QWord := QWord(NOP, false, false, false)

  class InstFetch {
    const c: FCfg
    const q: array<QWord>
    const btb: array<Entry>
    var qcnt: nat
    var r: FRegs

    ghost predicate Valid()
      reads this
    {
      && q.Length == QN && btb.Length == BTB_N
      && qcnt + Coming(r) <= QN && (r.infl ==> 1 <= r.inflN <= 2)
    }

    ghost function View(): Fetcher
      requires Valid()
      reads this, q, btb
    {
      Fetcher(q[..qcnt], r, btb[..])
    }

    constructor (c: FCfg, pc: Addr, fetchAtReset: bool)
      ensures Valid() && this.c == c && fresh(q) && fresh(btb)
      ensures View().q == [] && r.qpc == pc && r.fpc == pc && !r.infl && !r.mV && r.running == fetchAtReset
      ensures forall k :: 0 <= k < BTB_N ==> !btb[k].v
    {
      this.c := c;
      q := new QWord[QN](_ => EMPTY);
      btb := new Entry[BTB_N](_ => Entry(false, 0, false, false, 0));
      qcnt := 0;
      r := FRegs(pc, pc, false, false, 0, 0, fetchAtReset, false, false, true, false, 0, 0, 0, false, false);
    }

    /** Pop what ID took and append what arrives, through a copy of the queue. */
    method ShiftAndAppend(n: nat, a: seq<QWord>)
      requires q.Length == QN && n <= qcnt <= QN && |a| <= 2 && qcnt - n + |a| <= QN
      modifies q, this`qcnt
      ensures qcnt == old(qcnt) - n + |a|
      ensures q[..qcnt] == old(q[n..qcnt]) + a
    {
      var nq := new QWord[QN](_ => EMPTY);
      for k := 0 to QN
        invariant forall j :: 0 <= j < k ==> nq[j] == if j + n < QN then q[j + n] else EMPTY
        invariant q[..] == old(q[..]) && qcnt == old(qcnt)
      {
        nq[k] := if k + n < QN then q[k + n] else EMPTY;
      }
      var ncnt := qcnt - n;
      assert nq[..ncnt] == old(q[n..qcnt]);
      if |a| >= 1 { nq[ncnt] := a[0]; }
      if |a| >= 2 { nq[ncnt + 1] := a[1]; }
      ghost var all := nq[..ncnt + |a|];
      assert all == old(q[n..qcnt]) + a;
      for k := 0 to QN
        invariant (forall j :: 0 <= j < k ==> q[j] == nq[j]) && qcnt == old(qcnt)
        invariant all == nq[..ncnt + |a|]
      {
        q[k] := nq[k];
      }
      qcnt := ncnt + |a|;
      assert q[..qcnt] == all;
    }

    /** ID's learning and repairs, and clears. */
    method UpdateBtb(op: BtbOp, fs: bool)
      requires btb.Length == BTB_N
      modifies btb
      ensures btb[..] == NextBtb(c, Fetcher([], r.(fs := fs), old(btb[..])), FIn(None, false, false, 0, false, false, 0, 0, false, op))
    {
      if !c.btb { return; }
      match op
      case Keep =>
      case Clear =>
        for k := 0 to BTB_N
          invariant forall j :: 0 <= j < k ==> btb[j] == old(btb[j]).(v := false)
          invariant forall j :: k <= j < BTB_N ==> btb[j] == old(btb[j])
        {
          btb[k] := btb[k].(v := false);
        }
      case Write(val, fa, slot, tgt) =>
        btb[Ix(fa)] := Entry(val, fa, fs, slot, tgt);
    }

    /** Does a fetch go out, and is it predicted? */
    method Decide(i: FIn) returns (issue: bool, p: Option<Entry>)
      requires Valid() && i.consume <= 2 && i.consume <= qcnt
      ensures issue == Issues(c, View(), i) && p == Predict(c, View(), i)
    {
      var redir := i.redirect.Some?;
      var afterC := if redir then 0 else qcnt - i.consume;
      var pend := if !redir && r.infl && !r.fdrop then r.inflN else 0;
      var e := btb[Ix(r.fpc / 2)];
      var hit := c.btb && !redir && !r.mV && e.v && e.key == r.fpc / 2 && e.s == r.fs
                 && (!e.slot || c.longAny || r.fpc / 2 % 2 == 0);
      p := if hit then Some(e) else None;
      issue := (r.running || redir) && !r.hold && !(redir && i.redirectHold) && !(r.pstop && !redir) && !i.fetchHold
               && (!r.infl || i.ack) && afterC + pend + 2 <= QN && i.gnt;
    }

    /** The registers' next values. */
    method NextRegs(i: FIn) returns (n: FRegs)
      requires Valid() && i.consume <= 2 && i.consume <= qcnt
      ensures n == NextF(c, View(), i).r
    {
      hide Plus, NextBtb, Arrivals, Issues, Predict, Settle;
      var issue, p := Decide(i);
      n := Settled(i);
      if issue {
        var fa := n.fpc;
        n := n.(infl := true, inflN := Want(c, fa), fdrop := false, fFa := fa, inflP := p.Some?);
        if p.Some? {
          var e := p.value;
          n := n.(mV := true, mTg := e.tgt, mF := fa / 2, mEnd := Plus(fa, if e.slot then 4 else 2), inflSlot := e.slot,
                  fpc := Dbl(e.tgt));
        } else {
          n := n.(fpc := Plus(fa, 2 * Want(c, fa)));
        }
      }
      n := n.(hold := i.redirect.Some? && i.redirectHold);
    }

    /** ... before the next fetch goes out. */
    method Settled(i: FIn) returns (n: FRegs)
      requires Valid() && i.consume <= 2 && i.consume <= qcnt
      ensures n == Settle(c, View(), i).r
    {
      hide Plus, Arrivals, Pop;
      if i.redirect.Some? {
        var d := i.redirect.value;
        n := r.(qpc := d.pc, fpc := d.pc, running := true, pstop := false, fs := d.s, mV := false,
                infl := r.infl && !i.ack, fdrop := r.infl && !i.ack);
      } else {
        n := Popped(i.consume);
        if n.infl && i.ack {
          n := n.(infl := false, fdrop := false, pstop := n.pstop || (!n.fdrop && i.err));
        }
      }
    }

    method Popped(k: nat) returns (n: FRegs)
      requires Valid() && k <= 2 && k <= qcnt
      ensures n == Pop(c, View(), k).r
    {
      hide Plus;
      var m0, m1 := qcnt >= 1 && q[0].m, qcnt >= 2 && q[1].m;
      n := r.(mV := r.mV && !((m0 && k != 0) || (m1 && k == 2)),
              qpc := if c.btb && m0 && k != 0 then Plus(Dbl(r.mTg), if k == 2 then 2 else 0)
                     else if c.btb && m1 && k == 2 then Dbl(r.mTg)
                     else Plus(r.qpc, 2 * k));
    }

    lemma QueueNext(s: Fetcher, i: FIn)
      requires ValidF(s) && i.consume <= 2 && i.consume <= |s.q|
      ensures NextF(c, s, i).q ==
                if i.redirect.Some? then []
                else s.q[i.consume..] + if s.r.infl && i.ack && !s.r.fdrop then Arrivals(s.r, i) else []
      ensures NextF(c, s, i).btb == NextBtb(c, s, i)
    {
      hide Plus, NextBtb, Issues, Predict;
      assert s.q[i.consume..] + [] == s.q[i.consume..];
      assert Settle(c, s, i).q == if i.redirect.Some? then []
                                  else s.q[i.consume..] + if s.r.infl && i.ack && !s.r.fdrop then Arrivals(s.r, i) else [];
      hide Settle;
    }

    /** One enabled clock. */
    method Step(i: FIn)
      requires Valid() && i.consume <= 2 && i.consume <= qcnt
      modifies this, q, btb
      ensures Valid()
      ensures View() == NextF(c, old(View()), i)
    {
      ghost var s := View();
      QueueNext(s, i);
      var n := NextRegs(i);
      Room(s, i);
      hide NextF, Arrivals, Predict, Issues;
      var a := if r.infl && i.ack && !r.fdrop && i.redirect.None? then Arrivals(r, i) else [];
      assert s.q[i.consume..] == q[i.consume..qcnt];
      ShiftAndAppend(if i.redirect.Some? then qcnt else i.consume, a);
      UpdateBtb(i.op, r.fs);
      r := n;
    }

    lemma Room(s: Fetcher, i: FIn)
      requires ValidF(s) && i.consume <= 2 && i.consume <= |s.q| && |s.q| + Coming(s.r) <= QN
      requires s.r.infl ==> 1 <= s.r.inflN <= 2
      ensures |Arrivals(s.r, i)| <= 2 && (s.r.infl ==> |Arrivals(s.r, i)| <= s.r.inflN)
      ensures var t := NextF(c, s, i);
              |t.q| + Coming(t.r) <= QN && (t.r.infl ==> 1 <= t.r.inflN <= 2)
    {
      SettleRoom(s, i);
      hide Settle, Arrivals, Plus, NextBtb, Predict;
    }

    lemma SettleRoom(s: Fetcher, i: FIn)
      requires ValidF(s) && i.consume <= 2 && i.consume <= |s.q| && |s.q| + Coming(s.r) <= QN
      requires s.r.infl ==> 1 <= s.r.inflN <= 2
      ensures |Arrivals(s.r, i)| <= 2 && (s.r.infl ==> |Arrivals(s.r, i)| <= s.r.inflN)
      ensures var u := Settle(c, s, i);
              && |u.q| + Coming(u.r) <= QN && (u.r.infl ==> 1 <= u.r.inflN <= 2)
              && (Issues(c, s, i) ==> |u.q| + 2 <= QN && !u.r.infl)
    {
      hide Plus;
      var p := Pop(c, s, i.consume);
      assert |p.q| == |s.q| - i.consume && p.r == s.r.(qpc := p.r.qpc, mV := p.r.mV);
      hide Pop;
      if i.redirect.Some? {
      } else if !(s.r.infl && i.ack) {
      } else if s.r.fdrop {
      } else {
        assert |Settle(c, s, i).q| == |p.q| + |Arrivals(p.r, i)|;
        hide Settle;
      }
    }
  }
}
