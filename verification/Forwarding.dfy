/** The address filters are conservative, coverage is exact, and so the forwarding search is: when it
  hits, its value is what memory will hold once every store it looked at has landed in order. */
module Forwarding {
  import opened Memory
  import opened BusControl

  /** The two forms of the overlap filter, in 12-bit and in 32-bit arithmetic, are one. */
  lemma FiltersAgree(a1: Addr, z1: Size, a2: Addr, z2: Size)
    ensures FOvl(a1, z1, a2, z2) == Lwo(a1, z1, a2, z2)
  {
    LastLongword(a1, z1);
    LastLongword(a2, z2);
  }

  lemma LastLongword(a: Addr, z: Size)
    ensures FEnd(a, z) / 4 == LwLast(a, z)
  {
    PlusOffset(a, Bytes(z) - 1);
    hide Plus;
  }

  /** Any byte of an access is in the longword of its first or of its last byte. */
  lemma ByteLongword(a: Addr, z: Size, k: nat)
    requires k < Bytes(z)
    ensures LwFirst(Plus(a, k)) == LwFirst(a) || LwFirst(Plus(a, k)) == LwLast(a, z)
  {
    PlusOffset(a, k);
    PlusOffset(a, Bytes(z) - 1);
    hide Plus;
  }

  lemma PlusOffset(a: Addr, k: nat)
    requires k < 4
    ensures Plus(a, k) % PAGE == if a % PAGE + k < PAGE then a % PAGE + k else a % PAGE + k - PAGE
  {
  }

  /** No overlap seen means no byte in common, whatever pages alias. */
  lemma FilterConservative(x: Pages, s: Store, r: Read)
    requires !FOvl(s.addr, s.size, r.addr, r.size)
    ensures Apart(x, s, r)
  {
    FiltersAgree(s.addr, s.size, r.addr, r.size);
    hide FOvl, Phys, LwLast;
    forall j, k | 0 <= j < Bytes(s.size) && 0 <= k < Bytes(r.size)
      ensures StPhys(x, s, j) != RdPhys(x, r, k)
    {
      ByteLongword(s.addr, s.size, j);
      ByteLongword(r.addr, r.size, k);
      assert StPhys(x, s, j) % PAGE / 4 == LwFirst(Plus(s.addr, j));
      assert RdPhys(x, r, k) % PAGE / 4 == LwFirst(Plus(r.addr, k));
    }
  }

  /** Byte `j` of one access and byte `k` of another are in one longword of their pages. */
  predicate OneLongword(a1: Addr, j: nat, a2: Addr, k: nat) { Plus(a1, j) % PAGE / 4 == Plus(a2, k) % PAGE / 4 }

  /** The filter waits for no more than it must: an overlap is seen exactly if two bytes share a longword's place. */
  lemma FilterMeans(a1: Addr, z1: Size, a2: Addr, z2: Size)
    ensures FOvl(a1, z1, a2, z2) <==>
              exists j: nat, k: nat :: j < Bytes(z1) && k < Bytes(z2) && OneLongword(a1, j, a2, k)
  {
    FiltersAgree(a1, z1, a2, z2);
    PlusNone(a1);
    PlusNone(a2);
    hide FOvl, Plus;
    if Lwo(a1, z1, a2, z2) {
      var n1, n2 := Bytes(z1) - 1, Bytes(z2) - 1;
      assert OneLongword(a1, 0, a2, 0) || OneLongword(a1, 0, a2, n2) || OneLongword(a1, n1, a2, 0) || OneLongword(a1, n1, a2, n2);
    }
    forall j: nat, k: nat | j < Bytes(z1) && k < Bytes(z2) && OneLongword(a1, j, a2, k) ensures Lwo(a1, z1, a2, z2) {
      ByteLongword(a1, z1, j);
      ByteLongword(a2, z2, k);
    }
  }

  lemma PlusNone(a: Addr)
    ensures Plus(a, 0) == a
  {
  }

  /** A store covers a read exactly if both lie in one page and the read within the store. */
  lemma CoverMeans(a1: Addr, z1: Size, a2: Addr, z2: Size)
    ensures FCov(a1, z1, a2, z2) <==>
              && a1 / PAGE == a2 / PAGE && a1 % PAGE + Bytes(z1) <= PAGE && a2 % PAGE + Bytes(z2) <= PAGE
              && a1 <= a2 && a2 + Bytes(z2) <= a1 + Bytes(z1)
  {
    EndIs(a1, z1);
    EndIs(a2, z2);
    hide FEnd;
  }

  lemma EndIs(a: Addr, z: Size)
    ensures FEnd(a, z) >= a % PAGE <==> a % PAGE + Bytes(z) <= PAGE
    ensures FEnd(a, z) >= a % PAGE ==> FEnd(a, z) == a % PAGE + Bytes(z) - 1
  {
  }

  /** Coverage: each of the read's bytes is the store's byte as far in. */
  lemma CoverIsContainment(a1: Addr, z1: Size, a2: Addr, z2: Size, k: nat)
    requires FCov(a1, z1, a2, z2) && k < Bytes(z2)
    ensures var off := (a2 % 4 - a1 % 4) % 4;
            off + k < Bytes(z1) && Plus(a2, k) == Plus(a1, off + k)
  {
    EndOffset(a1, z1);
    EndOffset(a2, z2);
    var d := a2 % PAGE - a1 % PAGE;
    assert a2 == a1 + d;
    hide FEnd, FCov;
    LowBits(a1, d);
  }

  lemma EndOffset(a: Addr, z: Size)
    requires FEnd(a, z) >= a % PAGE
    ensures FEnd(a, z) == a % PAGE + Bytes(z) - 1
  {
  }

  lemma LowBits(a: nat, d: nat)
    requires d < 4
    ensures ((a + d) % 4 - a % 4) % 4 == d
  {
  }

  lemma ExtractLane(d: Word, a1: Addr, z1: Size, a2: Addr, z2: Size, k: nat)
    requires FCov(a1, z1, a2, z2) && k < Bytes(z2)
    ensures var off := (a2 % 4 - a1 % 4) % 4;
            && off + k < Bytes(z1)
            && Lane(FExt(d, a1, z1, a2, z2), Bytes(z2) - 1 - k) == Lane(d, Bytes(z1) - 1 - (off + k))
  {
    CoverIsContainment(a1, z1, a2, z2, k);
    hide FCov;
  }

  /** A store that covers the read answers it. */
  lemma CoverAnswers(x: Pages, m: Mem, s: Store, r: Read)
    requires s.fc == r.fc && FCov(s.addr, s.size, r.addr, r.size)
    ensures Answers(x, Apply(x, m, s), r, FExt(s.data, s.addr, s.size, r.addr, r.size))
    ensures !Apart(x, s, r)
  {
    var off := (r.addr % 4 - s.addr % 4) % 4;
    var v := FExt(s.data, s.addr, s.size, r.addr, r.size);
    forall k | 0 <= k < Bytes(r.size)
      ensures Lane(v, Bytes(r.size) - 1 - k) == Apply(x, m, s)[RdPhys(x, r, k)]
    {
      CoverIsContainment(s.addr, s.size, r.addr, r.size, k);
      ExtractLane(s.data, s.addr, s.size, r.addr, r.size, k);
      hide FCov, FExt, Phys;
      PutWrites(x, m, s, Bytes(s.size), off + k);
    }
    CoverIsContainment(s.addr, s.size, r.addr, r.size, 0);
    hide FCov, FExt, Phys;
    assert StPhys(x, s, off) == RdPhys(x, r, 0);
  }

  lemma SameAnswers(x: Pages, m: Mem, m': Mem, r: Read, w: Word)
    requires Same(x, m, m', r) && Answers(x, m, r, w)
    ensures Answers(x, m', r, w)
  {
  }

  /** What one store's verdict means for memory with that store applied. */
  lemma AskExact(x: Pages, m: Mem, s: Store, ok: bool, r: Read)
    ensures Ask(s, ok, r).Hit? ==> Answers(x, Apply(x, m, s), r, Ask(s, ok, r).value) && !Apart(x, s, r)
    ensures Ask(s, ok, r) == Miss ==> Same(x, m, Apply(x, m, s), r) && Apart(x, s, r)
  {
    if Ask(s, ok, r).Hit? { CoverAnswers(x, m, s, r); }
    if Ask(s, ok, r) == Miss {
      FilterConservative(x, s, r);
      ApartKeeps(x, m, s, Bytes(s.size), r);
    }
  }

  lemma {:induction false} AskFifoExact(x: Pages, m: Mem, ss: seq<Store>, r: Read)
    ensures AskFifo(ss, r).Hit? ==> Answers(x, ApplyAll(x, m, ss), r, AskFifo(ss, r).value)
    ensures AskFifo(ss, r) == Miss ==> Same(x, m, ApplyAll(x, m, ss), r)
  {
    if ss != [] {
      var rest := ss[..|ss| - 1];
      AskFifoExact(x, m, rest, r);
      AskExact(x, ApplyAll(x, m, rest), ss[|ss| - 1], true, r);
      hide Ask, Phys, FExt;
    }
  }

  /** The stores the search looked at, oldest first. */
  function Seen(fifo: seq<Store>, exs: Option<Store>, wbs: Option<Store>): seq<Store> {
    fifo + (if wbs.Some? then [wbs.value] else []) + (if exs.Some? then [exs.value.(size := L)] else [])
  }

  /** The forwarding search is exact, for any contents of the queue, WB and EX and any memory. */
  lemma SearchExact(x: Pages, m: Mem, fifo: seq<Store>, exs: Option<Store>, wbs: Option<Store>, ok: bool, r: Read)
    requires Search(fifo, exs, wbs, ok, r).Hit?
    ensures Answers(x, ApplyAll(x, m, Seen(fifo, exs, wbs)), r, Search(fifo, exs, wbs, ok, r).value)
  {
    hide Ask, AskFifo, Phys, FExt, Put, ApplyAll, Seen;
    var mf := ApplyAll(x, m, fifo);
    var mw := if wbs.Some? then Apply(x, mf, wbs.value) else mf;
    var me := if exs.Some? then Apply(x, mw, exs.value.(size := L)) else mw;
    AskFifoExact(x, m, fifo, r);
    if wbs.Some? { AskExact(x, mf, wbs.value, ok, r); }
    if exs.Some? { AskExact(x, mw, exs.value.(size := L), true, r); }
    SeenLast(x, m, fifo, exs, wbs);
  }

  lemma SeenLast(x: Pages, m: Mem, fifo: seq<Store>, exs: Option<Store>, wbs: Option<Store>)
    ensures var mf := ApplyAll(x, m, fifo);
            var mw := if wbs.Some? then Apply(x, mf, wbs.value) else mf;
            ApplyAll(x, m, Seen(fifo, exs, wbs)) ==
              if exs.Some? then Apply(x, mw, exs.value.(size := L)) else mw
  {
    var w := if wbs.Some? then [wbs.value] else [];
    var e := if exs.Some? then [exs.value.(size := L)] else [];
    ApplyAllJoins(x, m, fifo + w, e);
    ApplyAllJoins(x, m, fifo, w);
    ApplyOne(x, ApplyAll(x, m, fifo), w);
    ApplyOne(x, ApplyAll(x, m, fifo + w), e);
  }

  lemma ApplyOne(x: Pages, m: Mem, ss: seq<Store>)
    requires |ss| <= 1
    ensures ApplyAll(x, m, ss) == if ss == [] then m else Apply(x, m, ss[0])
  {
    if ss != [] { assert ss[..|ss| - 1] == []; }
  }
}
