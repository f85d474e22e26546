/** Store-to-load merging byte by byte, and the word memory it is used with when there is no bus. */
module LocalMemory {
  import opened Memory
  import opened BusControl
  import opened Forwarding

  // ---------------------------------------------------------------- merging a store into a load

  function SetLane(w: Word, k: nat, b: Byte): (r: Word)
    requires k < 4
    ensures forall i :: 0 <= i < 4 ==> Lane(r, i) == if i == k then b else Lane(w, i)
  {
    if k == 0 then w.(b0 := b) else if k == 1 then w.(b1 := b) else if k == 2 then w.(b2 := b) else w.(b3 := b)
  }

  /** How far into the store the load's byte `k` is. */
  function Into(la: Addr, k: nat, sa: Addr): Addr { (la + k - sa) % M32 }

  /** The load's byte `k`, the store's where the store covers it. */
  function MergedByte(ld: Word, la: Addr, lz: Size, s: Store, k: nat): Byte
    requires k < Bytes(lz)
  {
    if Into(la, k, s.addr) < Bytes(s.size) then StByte(s, Into(la, k, s.addr)) else Lane(ld, Bytes(lz) - 1 - k)
  }

  function MergedLane(ld: Word, la: Addr, lz: Size, s: Store, i: nat): Byte
    requires i < 4
  {
    if i < Bytes(lz) then MergedByte(ld, la, lz, s, Bytes(lz) - 1 - i) else Lane(ld, i)
  }

  function Merged(ld: Word, la: Addr, lz: Size, s: Store): (r: Word)
    ensures forall k :: 0 <= k < Bytes(lz) ==> Lane(r, Bytes(lz) - 1 - k) == MergedByte(ld, la, lz, s, k)
  {
    Word(MergedLane(ld, la, lz, s, 3), MergedLane(ld, la, lz, s, 2), MergedLane(ld, la, lz, s, 1), MergedLane(ld, la, lz, s, 0))
  }

  /** The byte loop, overwriting lanes of the load. */
  method StMerge(ld: Word, la: Addr, lz: Size, sv: bool, s: Store) returns (r: Word)
    ensures r == if sv then Merged(ld, la, lz, s) else ld
  {
    r := ld;
    var ln := Bytes(lz);
    if sv {
      var k := 0;
      while k < 4
        invariant 0 <= k <= 4
        invariant forall i :: 0 <= i < 4 ==>
          Lane(r, i) == if i < ln && ln - 1 - i < k then MergedByte(ld, la, lz, s, ln - 1 - i) else Lane(ld, i)
      {
        hide Lane, SetLane, StByte;
        if k < ln {
          var off := Into(la, k, s.addr);
          if off < Bytes(s.size) { r := SetLane(r, ln - 1 - k, StByte(s, off)); }
        }
        k := k + 1;
      }
      SameLanes(r, Merged(ld, la, lz, s));
    }
  }

  lemma SameLanes(v: Word, w: Word)
    requires forall i :: 0 <= i < 4 ==> Lane(v, i) == Lane(w, i)
    ensures v == w
  {
    assert Lane(v, 0) == Lane(w, 0) && Lane(v, 1) == Lane(w, 1) && Lane(v, 2) == Lane(w, 2) && Lane(v, 3) == Lane(w, 3);
  }

  /** Any number of stores, oldest first. */
  function MergedAll(ld: Word, la: Addr, lz: Size, ss: seq<Store>): Word {
    if ss == [] then ld else Merged(MergedAll(ld, la, lz, ss[..|ss| - 1]), la, lz, ss[|ss| - 1])
  }

  lemma FlatByte(s: Store, j: nat)
    ensures StPhys(Flat(), s, j) == Plus(s.addr, j)
  {
    FlatIsFlat(s.fc, Plus(s.addr, j));
  }

  lemma IntoIs(la: Addr, k: nat, s: Store)
    requires k < 4
    ensures var d := Into(la, k, s.addr);
            && Plus(s.addr, d) == Plus(la, k)
            && forall j :: 0 <= j < 4 && Plus(s.addr, j) == Plus(la, k) ==> j == d
  {
    var v := la + k - s.addr;
    assert (s.addr + v % M32) % M32 == (s.addr + v) % M32;
    forall j | 0 <= j < 4 && Plus(s.addr, j) == Plus(la, k) ensures j == Into(la, k, s.addr) {
      Residue(s.addr, j, la + k);
    }
  }

  lemma Residue(a: Addr, j: nat, b: nat)
    requires j < M32 && (a + j) % M32 == b % M32
    ensures (b - a) % M32 == j
  {
    assert (b - a) % M32 == (b % M32 - a) % M32;
    assert ((a + j) % M32 - a) % M32 == (a + j - a) % M32;
  }

  /** One store merged into a right load is right with the store applied. */
  lemma MergeExact(m: Mem, s: Store, r: Read, w: Word)
    requires Answers(Flat(), m, r, w)
    ensures Answers(Flat(), Apply(Flat(), m, s), r, Merged(w, r.addr, r.size, s))
  {
    hide Merged, Lane, Put, Phys, Plus;
    var n := Bytes(r.size);
    forall k | 0 <= k < n
      ensures Lane(Merged(w, r.addr, r.size, s), n - 1 - k) == Apply(Flat(), m, s)[RdPhys(Flat(), r, k)]
    {
      MergeByteExact(m, s, r, k);
      assert Lane(w, n - 1 - k) == m[RdPhys(Flat(), r, k)];
      assert Lane(Merged(w, r.addr, r.size, s), n - 1 - k) == MergedByte(w, r.addr, r.size, s, k);
    }
  }

  lemma MergeByteExact(m: Mem, s: Store, r: Read, k: nat)
    requires k < Bytes(r.size)
    ensures var d := Into(r.addr, k, s.addr);
            Apply(Flat(), m, s)[RdPhys(Flat(), r, k)]
              == if d < Bytes(s.size) then StByte(s, d) else m[RdPhys(Flat(), r, k)]
  {
    hide StByte, Put, Into, Plus, Phys;
    var d, p := Into(r.addr, k, s.addr), RdPhys(Flat(), r, k);
    FlatIsFlat(r.fc, Plus(r.addr, k));
    IntoIs(r.addr, k, s);
    if d < Bytes(s.size) {
      FlatByte(s, d);
      PutWrites(Flat(), m, s, Bytes(s.size), d);
    } else {
      forall j | 0 <= j < Bytes(s.size) ensures StPhys(Flat(), s, j) != p { FlatByte(s, j); }
      PutKeeps(Flat(), m, s, Bytes(s.size), p);
    }
  }

  /** Merging any list of stores, oldest first, into what memory had before them is reading memory after them. */
  lemma {:induction false} MergeAllExact(m: Mem, ss: seq<Store>, r: Read, w: Word)
    requires Answers(Flat(), m, r, w)
    ensures Answers(Flat(), ApplyAll(Flat(), m, ss), r, MergedAll(w, r.addr, r.size, ss))
  {
    hide Answers, Merged, Apply;
    if ss != [] {
      var t := ss[..|ss| - 1];
      MergeAllExact(m, t, r, w);
      MergeExact(ApplyAll(Flat(), m, t), ss[|ss| - 1], r, MergedAll(w, r.addr, r.size, t));
    }
  }

  /** The bus controller's youngest-first search, when it hits, gives the bytes that merging every store it looked at,
    oldest first, into any right load would. */
  lemma SearchIsMerge(m: Mem, fifo: seq<Store>, exs: Option<Store>, wbs: Option<Store>, ok: bool, r: Read, w: Word, k: nat)
    requires Search(fifo, exs, wbs, ok, r).Hit? && Answers(Flat(), m, r, w) && k < Bytes(r.size)
    ensures Lane(Search(fifo, exs, wbs, ok, r).value, k) == Lane(MergedAll(w, r.addr, r.size, Seen(fifo, exs, wbs)), k)
  {
    hide Search, Merged, ApplyAll, Phys, Seen, MergedAll, Lane;
    SearchExact(Flat(), m, fifo, exs, wbs, ok, r);
    MergeAllExact(m, Seen(fifo, exs, wbs), r, w);
    var n, m1 := Bytes(r.size), ApplyAll(Flat(), m, Seen(fifo, exs, wbs));
    var j := n - 1 - k;
    assert Lane(Search(fifo, exs, wbs, ok, r).value, n - 1 - j) == m1[RdPhys(Flat(), r, j)];
  }

  // ---------------------------------------------------------------- the word memory

  datatype Half = Half(hi: Byte, lo: Byte)

  const PC_RESET: nat := 0x400

  /** The word an address is in, of `n` words; the memory starts at the reset PC and wraps. */
  function Widx(n: nat, a: Addr): (i: nat)
    requires n > 0
    ensures i < n
  {
    (a - PC_RESET) % M32 / 2 % n
  }

  function RByte(w: seq<Half>, a: Addr): Byte
    requires |w| > 0
  {
    var h := w[Widx(|w|, a)];
    if a % 2 == 1 then h.lo else h.hi
  }

  function WByte(w: seq<Half>, a: Addr, b: Byte): (r: seq<Half>)
    requires |w| > 0
    ensures |r| == |w|
  {
    var i := Widx(|w|, a);
    w[i := if a % 2 == 1 then w[i].(lo := b) else w[i].(hi := b)]
  }

  /** Two addresses of one byte. */
  predicate SameCell(n: nat, a: Addr, b: Addr)
    requires n > 0
  {
    Widx(n, a) == Widx(n, b) && a % 2 == b % 2
  }

  lemma WByteReads(w: seq<Half>, a: Addr, b: Byte, c: Addr)
    requires |w| > 0
    ensures RByte(WByte(w, a, b), c) == if SameCell(|w|, a, c) then b else RByte(w, c)
  {
    hide Widx;
  }

  /** The first `k` bytes of a store written. */
  function Written(w: seq<Half>, s: Store, k: nat): (r: seq<Half>)
    requires |w| > 0 && k <= Bytes(s.size)
    ensures |r| == |w|
  {
    if k == 0 then w else WByte(Written(w, s, k - 1), Plus(s.addr, k - 1), StByte(s, k - 1))
  }

  /** The first `k` bytes of a read, right-aligned. */
  function Gathered(w: seq<Half>, r: Read, k: nat): Word
    requires |w| > 0 && k <= Bytes(r.size)
  {
    if k == 0 then ZERO
    else
      var v := Gathered(w, r, k - 1);
      Word(v.b2, v.b1, v.b0, RByte(w, Plus(r.addr, k - 1)))
  }

  /** The dual-port memory, byte loops and all: a write goes in first, a read of the same clock sees it. */
  class L1 {
    const mem: array<Half>
    var qA: Word
    var rdAck: bool
    var rdData: Word

    constructor (aw: nat)
      ensures fresh(mem) && mem.Length == Pow2(aw) && !rdAck
      ensures forall i :: 0 <= i < mem.Length ==> mem[i] == Half(0x4E, 0x71)
    {
      mem := new Half[Pow2(aw)](_ => Half(0x4E, 0x71));
      rdAck := false;
      rdData := ZERO;
      qA := ZERO;
    }

    method WriteBytes(s: Store)
      requires mem.Length > 0
      modifies mem
      ensures mem[..] == Written(old(mem[..]), s, Bytes(s.size))
    {
      var n, k := Bytes(s.size), 0;
      while k < n
        invariant 0 <= k <= n
        invariant mem[..] == Written(old(mem[..]), s, k)
      {
        hide Widx, StByte;
        ghost var was := mem[..];
        var ba, b := Plus(s.addr, k), StByte(s, k);
        var i := Widx(mem.Length, ba);
        var w := mem[i];
        if ba % 2 == 1 { w := w.(lo := b); } else { w := w.(hi := b); }
        mem[i] := w;
        assert mem[..] == WByte(was, ba, b);
        k := k + 1;
      }
    }

    method ReadBytes(r: Read) returns (rv: Word)
      requires mem.Length > 0
      ensures rv == Gathered(mem[..], r, Bytes(r.size))
    {
      rv := ZERO;
      var n, k := Bytes(r.size), 0;
      while k < n
        invariant 0 <= k <= n
        invariant rv == Gathered(mem[..], r, k)
      {
        hide Widx;
        var a := Plus(r.addr, k);
        var w := mem[Widx(mem.Length, a)];
        rv := Word(rv.b2, rv.b1, rv.b0, if a % 2 == 1 then w.lo else w.hi);
        k := k + 1;
      }
    }

    method Clock(fetch: Option<nat>, rd: Option<Read>, wr: Option<Store>)
      requires mem.Length > 0 && (fetch.Some? ==> fetch.value < mem.Length)
      modifies this, mem
      ensures mem[..] == if wr.Some? then Written(old(mem[..]), wr.value, Bytes(wr.value.size)) else old(mem[..])
      ensures rdAck == rd.Some?
      ensures rdData == if rd.Some? then Gathered(mem[..], rd.value, Bytes(rd.value.size)) else old(rdData)
      ensures qA == if fetch.None? then old(qA)
                    else var h, l := old(mem[fetch.value]), old(mem[(fetch.value + 1) % mem.Length]);
                         Word(h.hi, h.lo, l.hi, l.lo)
    {
      if fetch.Some? {
        var h, l := mem[fetch.value], mem[(fetch.value + 1) % mem.Length];
        qA := Word(h.hi, h.lo, l.hi, l.lo);
      }
      if wr.Some? { WriteBytes(wr.value); }
      rdAck := rd.Some?;
      if rd.Some? { rdData := ReadBytes(rd.value); }
    }
  }

  /** The memory's byte at every address is a flat memory's, over the addresses it is large enough for. */
  ghost predicate Models(w: seq<Half>, m: Mem) {
    |w| > 0 && forall a: Addr :: InReach(|w|, a) ==> RByte(w, a) == m[a]
  }

  predicate InReach(n: nat, a: Addr) { (a - PC_RESET) % M32 < 2 * n }

  predicate Reaches(n: nat, a: Addr, z: Size) { forall k :: 0 <= k < Bytes(z) ==> InReach(n, Plus(a, k)) }

  lemma OneCell(n: nat, a: Addr, b: Addr)
    requires n > 0 && InReach(n, a) && InReach(n, b) && SameCell(n, a, b)
    ensures a == b
  {
    var x, y := (a - PC_RESET) % M32, (b - PC_RESET) % M32;
    SmallMod(x / 2, n);
    SmallMod(y / 2, n);
    SameParity(a);
    SameParity(b);
    assert x == y;
  }

  lemma SameParity(a: Addr)
    ensures (a - PC_RESET) % M32 % 2 == a % 2
    ensures a == ((a - PC_RESET) % M32 + PC_RESET) % M32
  {
  }

  lemma SmallMod(v: nat, n: nat)
    requires v < n
    ensures v % n == v
  {
  }

  /** The word memory is a flat byte memory as far as it reaches: a store makes it the memory with the store applied. */
  lemma {:induction false} WrittenModels(w: seq<Half>, m: Mem, s: Store, k: nat)
    requires Models(w, m) && k <= Bytes(s.size) && Reaches(|w|, s.addr, s.size)
    ensures Models(Written(w, s, k), Put(Flat(), m, s, k))
  {
    hide RByte, WByte, InReach, SameCell, StByte;
    if k > 0 {
      WrittenModels(w, m, s, k - 1);
      var w1, m1, p := Written(w, s, k - 1), Put(Flat(), m, s, k - 1), Plus(s.addr, k - 1);
      FlatByte(s, k - 1);
      forall a: Addr | InReach(|w|, a) ensures RByte(Written(w, s, k), a) == Put(Flat(), m, s, k)[a] {
        WByteReads(w1, p, StByte(s, k - 1), a);
        if SameCell(|w|, p, a) { OneCell(|w|, p, a); }
        assert p == a ==> SameCell(|w|, p, a) by { CellItself(|w|, p); }
      }
    }
  }

  lemma CellItself(n: nat, a: Addr)
    requires n > 0
    ensures SameCell(n, a, a)
  {
  }

  /** The fetch port's two words are the four bytes of the flat memory at the word's address. */
  lemma FetchIsFlat(w: seq<Half>, m: Mem, i: nat)
    requires Models(w, m) && i + 1 < |w| && PC_RESET + 2 * |w| <= M32
    ensures var a := PC_RESET + 2 * i;
            Word(w[i].hi, w[i].lo, w[i + 1].hi, w[i + 1].lo) == Word(m[a], m[a + 1], m[a + 2], m[a + 3])
  {
    FetchHalf(w, m, i);
    FetchHalf(w, m, i + 1);
  }

  lemma FetchHalf(w: seq<Half>, m: Mem, i: nat)
    requires Models(w, m) && i < |w| && PC_RESET + 2 * |w| <= M32
    ensures w[i] == Half(m[PC_RESET + 2 * i], m[PC_RESET + 2 * i + 1])
  {
    var a: Addr := PC_RESET + 2 * i;
    SmallMod(i, |w|);
    assert RByte(w, a) == m[a] && RByte(w, a + 1) == m[a + 1];
  }

  lemma GatheredAnswers(w: seq<Half>, m: Mem, r: Read)
    requires Models(w, m) && Reaches(|w|, r.addr, r.size)
    ensures Answers(Flat(), m, r, Gathered(w, r, Bytes(r.size)))
  {
    hide RByte, InReach;
    var n := Bytes(r.size);
    assert Gathered(w, r, 0) == ZERO;
    assert Gathered(w, r, 1).b0 == RByte(w, Plus(r.addr, 0));
    if n >= 2 { assert Gathered(w, r, 2).b1 == RByte(w, Plus(r.addr, 0)) && Gathered(w, r, 2).b0 == RByte(w, Plus(r.addr, 1)); }
    if n == 4 {
      var g := Gathered(w, r, 3);
      assert g.b2 == RByte(w, Plus(r.addr, 0)) && g.b1 == RByte(w, Plus(r.addr, 1)) && g.b0 == RByte(w, Plus(r.addr, 2));
    }
    hide Plus;
    forall k | 0 <= k < n ensures Lane(Gathered(w, r, n), n - 1 - k) == m[RdPhys(Flat(), r, k)] {
      FlatIsFlat(r.fc, Plus(r.addr, k));
    }
  }

  /** A load answered by the word memory, with the stores of WB and then EX merged in, is right for all of them. */
  lemma LoadIsExact(w: seq<Half>, m: Mem, r: Read, older: seq<Store>)
    requires Models(w, m) && Reaches(|w|, r.addr, r.size)
    ensures Answers(Flat(), ApplyAll(Flat(), m, older), r, MergedAll(Gathered(w, r, Bytes(r.size)), r.addr, r.size, older))
  {
    hide Answers, MergedAll, Gathered;
    GatheredAnswers(w, m, r);
    MergeAllExact(m, older, r, Gathered(w, r, Bytes(r.size)));
  }
}
