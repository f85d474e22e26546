/** The queue always holds the code's words, in order, from the head's address, through at most one
  predicted jump. */
module PrefetchProof {
  import opened Memory
  import opened Prefetch

  /** What ID sees at the head is the stream: the second word follows the first, through its mark. */
  lemma HeadIsStream(code: Addr -> Half, s: Fetcher)
    requires Stream(code, s)
    ensures |s.q| >= 1 && !s.q[0].err ==> s.q[0].w == code(s.r.qpc)
    ensures |s.q| >= 2 && !s.q[1].err ==> s.q[1].w == code(if s.q[0].m then Dbl(s.r.mTg) else Plus(s.r.qpc, 2))
  {
    var k :| StreamK(code, s, k);
    if |s.q| >= 2 { assert s.q[1].err || s.q[1].w == code(StreamAddr(s.r, k, 1)); }
  }

  /** The mark's place after ID takes `n` words. */
  function PoppedMark(k: nat, n: nat): nat {
    if k == NO || k < n then NO else k - n
  }

  /** Taking words from the head shifts the stream by as many. */
  lemma PopAddr(c: FCfg, s: Fetcher, k: nat, n: nat, i: nat)
    requires MarkedAt(s.q, k) && (c.btb || k == NO) && n <= 2 && n <= |s.q| <= QN && i <= 10
    ensures StreamAddr(Pop(c, s, n).r, PoppedMark(k, n), i) == StreamAddr(s.r, k, i + n)
  {
    var t := Pop(c, s, n);
    if k < n {
      assert k == 1 ==> !s.q[0].m;
      PlusPlus(Dbl(s.r.mTg), 2 * (n - k - 1), 2 * i);
    } else {
      assert n >= 1 ==> !s.q[0].m;
      assert n >= 2 ==> !s.q[1].m;
      PlusPlus(s.r.qpc, 2 * n, 2 * i);
    }
  }

  lemma PopKeeps(c: FCfg, code: Addr -> Half, s: Fetcher, k: nat, n: nat)
    requires c.btb || !s.r.mV
    requires StreamK(code, s, k) && n <= 2 && n <= |s.q|
    ensures StreamK(code, Pop(c, s, n), PoppedMark(k, n))
  {
    var k' := PoppedMark(k, n);
    PopRegs(c, s, k, n);
    PopWords(c, code, s, k, n);
    PopAddr(c, s, k, n, |s.q| - n);
    PopAddr(c, s, k, n, |s.q| - n + Coming(s.r));
    if k >= n {
      PlusPlus(s.r.qpc, 2 * n, 2 * (k' + 1));
      PlusPlus(s.r.qpc, 2 * n, 2 * (|s.q| - n + if s.r.inflSlot then 2 else 1));
    }
    hide Plus, MarkedAt, Pop, StreamAddr;
    PopFrom(c, code, s, k, n, Pop(c, s, n));
  }

  lemma PopFrom(c: FCfg, code: Addr -> Half, s: Fetcher, k: nat, n: nat, t: Fetcher)
    requires StreamK(code, s, k) && n <= |s.q| && t.q == s.q[n..]
    requires t.r == s.r.(qpc := t.r.qpc, mV := t.r.mV)
    requires if k < n then !t.r.mV else
               && t.r.mV == s.r.mV
               && Plus(t.r.qpc, 2 * (PoppedMark(k, n) + 1)) == Plus(s.r.qpc, 2 * n + 2 * (PoppedMark(k, n) + 1))
               && var d := |s.q| - n + (if s.r.inflSlot then 2 else 1);
                  Plus(t.r.qpc, 2 * d) == Plus(s.r.qpc, 2 * n + 2 * d)
    requires MarkedAt(t.q, PoppedMark(k, n))
    requires forall i :: 0 <= i < |t.q| ==> t.q[i].w == if t.q[i].err then NOP else code(StreamAddr(t.r, PoppedMark(k, n), i))
    requires StreamAddr(t.r, PoppedMark(k, n), |t.q|) == StreamAddr(s.r, k, |s.q|)
    requires StreamAddr(t.r, PoppedMark(k, n), |t.q| + Coming(s.r)) == StreamAddr(s.r, k, |s.q| + Coming(s.r))
    ensures StreamK(code, t, PoppedMark(k, n))
  {
    hide Plus, StreamAddr;
  }

  lemma PopWords(c: FCfg, code: Addr -> Half, s: Fetcher, k: nat, n: nat)
    requires c.btb || k == NO
    requires MarkedAt(s.q, k) && n <= 2 && n <= |s.q| <= QN
    requires forall i :: 0 <= i < |s.q| ==> s.q[i].w == if s.q[i].err then NOP else code(StreamAddr(s.r, k, i))
    ensures var t := Pop(c, s, n);
            var k' := PoppedMark(k, n);
            && MarkedAt(t.q, k')
            && forall i :: 0 <= i < |t.q| ==> t.q[i].w == if t.q[i].err then NOP else code(StreamAddr(t.r, k', i))
  {
    var t := Pop(c, s, n);
    var k' := PoppedMark(k, n);
    hide StreamAddr, Plus;
    forall i | 0 <= i < |t.q| && i != k' ensures !t.q[i].m { assert t.q[i] == s.q[i + n]; }
    forall i | 0 <= i < |t.q| ensures t.q[i].w == if t.q[i].err then NOP else code(StreamAddr(t.r, k', i)) {
      assert t.q[i] == s.q[i + n];
      PopAddr(c, s, k, n, i);
    }
  }

  lemma PopRegs(c: FCfg, s: Fetcher, k: nat, n: nat)
    requires MarkedAt(s.q, k) && n <= 2 && n <= |s.q|
    ensures var t := Pop(c, s, n);
            && t.q == s.q[n..] && t.r == s.r.(qpc := t.r.qpc, mV := t.r.mV) && t.btb == s.btb
            && (k < n ==> !t.r.mV)
            && (k >= n ==> t.r.qpc == Plus(s.r.qpc, 2 * n) && t.r.mV == s.r.mV)
  {
  }

  /** Where the mark is once an answer's words have joined. */
  function ReceivedMark(s: Fetcher, k: nat, i: FIn): nat {
    if Live(s.r) && i.ack && s.r.inflP then |s.q| + (if s.r.inflSlot then 1 else 0) else k
  }

  /** An answer's words continue the stream where it ended. */
  lemma ReceiveKeeps(code: Addr -> Half, s: Fetcher, k: nat, i: FIn)
    requires StreamK(code, s, k)
    requires Live(s.r) && i.ack && !i.err ==> i.w0 == code(s.r.fFa) && (s.r.inflN == 2 ==> i.w1 == code(Plus(s.r.fFa, 2)))
    ensures StreamK(code, Receive(s, i), ReceivedMark(s, k, i))
  {
    if Live(s.r) && i.ack {
      NextAddr(s.r, k, |s.q|);
      if s.r.inflP { ReceiveMark(code, s, i); } else { ReceivePlain(code, s, k, i); }
    }
  }

  lemma ReceivePlain(code: Addr -> Half, s: Fetcher, k: nat, i: FIn)
    requires StreamK(code, s, k) && Live(s.r) && i.ack && !s.r.inflP
    requires !i.err ==> i.w0 == code(s.r.fFa) && (s.r.inflN == 2 ==> i.w1 == code(Plus(s.r.fFa, 2)))
    ensures StreamK(code, Receive(s, i), k)
  {
    var n := |s.q|;
    var t := Receive(s, i);
    NextAddr(s.r, k, n);
    hide Plus;
    assert forall j :: StreamAddr(t.r, k, j) == StreamAddr(s.r, k, j);
    forall j | 0 <= j < |t.q| ensures t.q[j].w == if t.q[j].err then NOP else code(StreamAddr(t.r, k, j)) {
      if j < n { assert t.q[j] == s.q[j]; }
    }
    hide StreamAddr;
  }

  lemma ReceiveMark(code: Addr -> Half, s: Fetcher, i: FIn)
    requires StreamK(code, s, NO) && Live(s.r) && i.ack && s.r.inflP
    requires !i.err ==> i.w0 == code(s.r.fFa) && (s.r.inflN == 2 ==> i.w1 == code(Plus(s.r.fFa, 2)))
    ensures StreamK(code, Receive(s, i), ReceivedMark(s, NO, i))
  {
    var n := |s.q|;
    var t := Receive(s, i);
    var k := ReceivedMark(s, NO, i);
    PlusPlus(s.r.qpc, 2 * n, 2);
    PlusPlus(Dbl(s.r.mTg), 0, 0);
    hide Plus;
    assert |t.q| == k + 1;
    forall j | 0 <= j < |t.q| ensures t.q[j].w == if t.q[j].err then NOP else code(StreamAddr(t.r, k, j)) {
      if j < n { assert t.q[j] == s.q[j] && StreamAddr(s.r, NO, j) == StreamAddr(t.r, k, j); }
    }
  }

  /** One word on in the stream is two bytes on, except past the mark. */
  lemma NextAddr(r: FRegs, k: nat, i: nat)
    ensures i != k ==> StreamAddr(r, k, i + 1) == Plus(StreamAddr(r, k, i), 2)
    ensures i == k ==> StreamAddr(r, k, i + 1) == Dbl(r.mTg)
  {
    PlusPlus(r.qpc, 2 * i, 2);
    if i > k { PlusPlus(Dbl(r.mTg), 2 * (i - k - 1), 2); }
    if i == k { PlusZero(Dbl(r.mTg)); }
    hide Plus;
  }

  lemma PlusZero(a: Addr)
    ensures Plus(a, 0) == a
  {
  }

  lemma NextTwo(r: FRegs, k: nat, i: nat)
    requires i != k && i + 1 != k
    ensures StreamAddr(r, k, i + 2) == Plus(StreamAddr(r, k, i), 4)
  {
    NextAddr(r, k, i);
    NextAddr(r, k, i + 1);
    PlusPlus(StreamAddr(r, k, i), 2, 2);
    hide Plus, StreamAddr;
  }

  lemma LaunchKeeps(c: FCfg, code: Addr -> Half, s: Fetcher, k: nat, p: Option<Entry>)
    requires StreamK(code, s, k) && !s.r.infl && |s.q| + 2 <= QN
    requires p.Some? ==> !s.r.mV && (p.value.slot ==> Want(c, s.r.fpc) == 2)
    ensures StreamK(code, Launch(c, s, p), k)
  {
    var n := |s.q|;
    NextAddr(s.r, k, n);
    NextTwo(s.r, k, n);
    if p.Some? {
      PlusPlus(s.r.qpc, 2 * n, if p.value.slot then 4 else 2);
    }
    hide Plus;
    assert s.r.fpc == StreamAddr(s.r, k, n);
  }

  lemma RestartKeeps(code: Addr -> Half, s: Fetcher, k: nat, d: Redirect, i: FIn)
    requires StreamK(code, s, k)
    ensures StreamK(code, Restart(s, d, i), NO)
  {
  }

  lemma RoomLeft(c: FCfg, s: Fetcher, i: FIn)
    requires ValidF(s) && i.consume <= 2 && i.consume <= |s.q| && Issues(c, s, i) && (s.r.infl ==> 1 <= s.r.inflN <= 2)
    ensures var t := Settle(c, s, i);
            && !t.r.infl && |t.q| + 2 <= QN
            && (Predict(c, s, i).Some? ==> !t.r.mV && (Predict(c, s, i).value.slot ==> Want(c, t.r.fpc) == 2))
  {
    hide Plus;
  }

  lemma LastTouches(c: FCfg, code: Addr -> Half, s: Fetcher, i: FIn, u: Fetcher, k: nat)
    requires StreamK(code, u, k) && ValidF(s)
    ensures var v := u.(btb := NextBtb(c, s, i), r := u.r.(hold := i.redirect.Some? && i.redirectHold));
            StreamK(code, v, k) && ValidF(v)
  {
    hide Plus;
  }

  lemma SettleKeeps(c: FCfg, code: Addr -> Half, s: Fetcher, k: nat, i: FIn) returns (k': nat)
    requires StreamK(code, s, k) && Honest(code, s, i) && (c.btb || !s.r.mV)
    ensures StreamK(code, Settle(c, s, i), k')
  {
    hide StreamK, Pop, Receive, Restart, Plus, StreamAddr;
    if i.redirect.Some? {
      k' := NO;
      RestartKeeps(code, s, k, i.redirect.value, i);
    } else {
      var p := Pop(c, s, i.consume);
      PopKeeps(c, code, s, k, i.consume);
      assert p.r == s.r.(qpc := p.r.qpc, mV := p.r.mV) by { PopFrame(c, s, i.consume); }
      ReceiveKeeps(code, p, PoppedMark(k, i.consume), i);
      k' := ReceivedMark(p, PoppedMark(k, i.consume), i);
    }
  }

  lemma PopFrame(c: FCfg, s: Fetcher, n: nat)
    requires n <= 2 && n <= |s.q|
    ensures var p := Pop(c, s, n); p.r == s.r.(qpc := p.r.qpc, mV := p.r.mV)
  {
  }

  /** Every clock keeps the stream: no word is lost, doubled, or taken from a dropped fetch, and the
    queued and coming words never exceed the queue. */
  lemma StepKeepsStream(c: FCfg, code: Addr -> Half, s: Fetcher, i: FIn)
    requires ValidF(s) && Stream(code, s) && Honest(code, s, i) && (c.btb || !s.r.mV)
    ensures ValidF(NextF(c, s, i)) && Stream(code, NextF(c, s, i)) && (c.btb || !NextF(c, s, i).r.mV)
  {
    var k :| StreamK(code, s, k);
    assert s.r.infl ==> 1 <= s.r.inflN <= 2;
    NoBuffer(c, s, i);
    hide StreamK, Settle, Launch, NextBtb, Issues, Predict;
    var k' := SettleKeeps(c, code, s, k, i);
    var t := Settle(c, s, i);
    var u := if Issues(c, s, i) then Launch(c, t, Predict(c, s, i)) else t;
    if Issues(c, s, i) {
      RoomLeft(c, s, i);
      LaunchKeeps(c, code, t, k', Predict(c, s, i));
    }
    LastTouches(c, code, s, i, u, k');
  }

  /** Without the buffer nothing is ever predicted. */
  lemma NoBuffer(c: FCfg, s: Fetcher, i: FIn)
    requires ValidF(s) && i.consume <= 2 && i.consume <= |s.q| && (c.btb || !s.r.mV)
    ensures c.btb || !NextF(c, s, i).r.mV
  {
    if !c.btb {
      assert Predict(c, s, i).None?;
      hide Plus, Arrivals, NextBtb, Predict, Issues, MarkedAt;
      assert i.redirect.None? ==> !Receive(Pop(c, s, i.consume), i).r.mV;
    }
  }

  /** Where no address wraps: every queued word, and every word on its way that will be queued, lies in one of the two
    ranges reported, and a queued word is at its place in the stream. */
  lemma WordsInRanges(code: Addr -> Half, s: Fetcher, k: nat, i: nat)
    requires StreamK(code, s, k) && i < |s.q| + Joining(s.r)
    requires s.r.qpc + 2 * QN < M32 && Dbl(s.r.mTg) + 2 * QN < M32
    ensures var a := if i < |s.q| then StreamAddr(s.r, k, i) else Plus(s.r.fFa, 2 * (i - |s.q|));
            InRange(a, Path(s.r)) || InRange(a, Beyond(s.r))
  {
    hide Plus;
    var r, n := s.r, |s.q|;
    if i >= n {
      NextAddr(r, k, n);
      assert i == n || i == n + 1;
    }
    NoWrap(r.qpc, 2 * i);
    NoWrap(r.qpc, 2 * (n + Coming(r)));
    NoWrap(Dbl(r.mTg), if i > k then 2 * (i - k - 1) else 0);
    NoWrap(Dbl(r.mTg), if n + Coming(r) > k then 2 * (n + Coming(r) - k - 1) else 0);
    if k != NO { NoWrap(r.qpc, 2 * (k + 1)); }
    if Live(r) && r.inflP { NoWrap(r.qpc, 2 * (n + if r.inflSlot then 2 else 1)); }
    if i == n + 1 { NoWrap(r.fFa, 2); }
    if i == n { PlusZero(r.fFa); }
  }

  /** And the ranges report no more: together they are as long as those words are many. */
  lemma RangesAreTight(code: Addr -> Half, s: Fetcher)
    requires Stream(code, s)
    requires s.r.qpc + 2 * QN < M32 && Dbl(s.r.mTg) + 2 * QN < M32
    ensures var p, b := Path(s.r), Beyond(s.r);
            && p.lo <= p.hi && b.lo <= b.hi
            && (p.hi - p.lo) + (b.hi - b.lo) == 2 * (|s.q| + Joining(s.r))
  {
    var k: nat :| StreamK(code, s, k);
    var r, n := s.r, |s.q|;
    NoWrap(r.qpc, 2 * (n + Coming(r)));
    NoWrap(Dbl(r.mTg), if n + Coming(r) > k then 2 * (n + Coming(r) - k - 1) else 0);
    if k != NO { NoWrap(r.qpc, 2 * (k + 1)); }
    if Live(r) && r.inflP { NoWrap(r.qpc, 2 * (n + if r.inflSlot then 2 else 1)); }
    hide Plus;
  }

  lemma NoWrap(a: Addr, d: nat)
    ensures a + d < M32 ==> Plus(a, d) == a + d
  {
  }
}
