/** A transfer's pieces against the whole access: what each piece touches, what it writes, and what
  the pieces of a read put together. */
module Splitting {
  import opened Memory
  import opened BusControl

  /** The first `k` of the `n` bytes of right-aligned `w`, from physical address `p` upwards: what
    memory does with a write of which the MMU translated the first byte. */
  ghost function Poke(m: Mem, p: Addr, w: Word, n: nat, k: nat): Mem
    requires k <= n <= 4
  {
    if k == 0 then m else Poke(m, p, w, n, k - 1)[Plus(p, k - 1) := Lane(w, n - k)]
  }

  function StepBytes(p: Split, z: Size): nat { Bytes(PieceSize(p, z)) }

  /** Bytes of the access the first `i` pieces cover. */
  function Covered(p: Split, z: Size, i: nat): nat { i * StepBytes(p, z) }

  ghost predicate Follows(c: Cfg, x: Pages) { c.tcE == x.on && c.tcP == x.big }

  /** The pieces tile the access: they are consecutive and end with its last byte. */
  lemma PiecesTile(c: Cfg, a: Addr, z: Size)
    ensures var p := SplitOf(c, a, z); Covered(p, z, Pieces(p, z)) == Bytes(z)
  {
  }

  /** An access is split exactly if translation is on and it crosses a page, or MISPLIT is on and it is not aligned to its
    size; into words exactly if MISPLIT finds a longword at an odd word. */
  lemma SplitsOnlyWhere(c: Cfg, a: Addr, z: Size)
    ensures var p := SplitOf(c, a, z);
            && (p != Whole <==>
                  || (c.tcE && a % (if c.tcP then 0x2000 else 0x1000) + Bytes(z) > if c.tcP then 0x2000 else 0x1000)
                  || (c.misplit && a % Bytes(z) != 0))
            && (p == Words <==> c.misplit && z == L && a % 4 == 2)
  {
  }

  lemma PieceStart(c: Cfg, a: Addr, z: Size, i: nat, k: nat)
    requires i < Pieces(SplitOf(c, a, z), z)
    requires k < StepBytes(SplitOf(c, a, z), z)
    ensures var p := SplitOf(c, a, z);
            && Plus(PieceAddr(p, a, i), k) == Plus(a, Covered(p, z, i) + k)
            && Covered(p, z, i) + k < Bytes(z)
  {
  }

  /** With translation on, no piece crosses a page (4K or 8K). */
  lemma PieceInPage(c: Cfg, a: Addr, z: Size, i: nat)
    requires i < Pieces(SplitOf(c, a, z), z) && c.tcE
    ensures var p := SplitOf(c, a, z);
            var page := if c.tcP then 0x2000 else 0x1000;
            PieceAddr(p, a, i) % page + StepBytes(p, z) <= page
  {
    match SplitOf(c, a, z)
    case Whole => WholeInPage(c, a, z);
    case Words => hide Crosses; EvenInPage(PieceAddr(Words, a, i));
    case Bytewise => hide Crosses; ByteInPage(PieceAddr(Bytewise, a, i));
  }

  lemma EvenInPage(b: Addr)
    requires b % 2 == 0
    ensures b % 0x1000 + 2 <= 0x1000 && b % 0x2000 + 2 <= 0x2000
  {
    assert b % 0x1000 % 2 == 0 && b % 0x2000 % 2 == 0;
  }

  lemma ByteInPage(b: Addr)
    ensures b % 0x1000 + 1 <= 0x1000 && b % 0x2000 + 1 <= 0x2000
  {
  }

  lemma WholeInPage(c: Cfg, a: Addr, z: Size)
    requires !Crosses(c.tcE, c.tcP, a, z) && c.tcE
    ensures var page := if c.tcP then 0x2000 else 0x1000; a % page + Bytes(z) <= page
  {
  }

  /** With misaligned transfers split, every piece lies in one longword. */
  lemma PieceInLongword(c: Cfg, a: Addr, z: Size, i: nat)
    requires i < Pieces(SplitOf(c, a, z), z) && c.misplit
    ensures var p := SplitOf(c, a, z); PieceAddr(p, a, i) % 4 + StepBytes(p, z) <= 4
  {
    hide Crosses, Plus;
    match SplitOf(c, a, z)
    case Whole => WholeInLongword(c, a, z);
    case Words => EvenInLongword(a, 2 * i);
    case Bytewise => ByteInLongword(PieceAddr(Bytewise, a, i));
  }

  lemma WholeInLongword(c: Cfg, a: Addr, z: Size)
    requires !Misal(c, a, z) && c.misplit
    ensures a % 4 + Bytes(z) <= 4
  {
    assert a % 2 == 0 ==> a % 4 != 3;
  }

  lemma EvenInLongword(a: Addr, k: nat)
    requires a % 2 == 0 && k % 2 == 0
    ensures Plus(a, k) % 4 + 2 <= 4
  {
    assert (a + k) % 2 == 0;
    EvenMod(a + k);
    hide Plus;
    assert Plus(a, k) == (a + k) % M32 by { PlusIs(a, k); }
  }

  lemma PlusIs(a: Addr, k: nat)
    ensures Plus(a, k) == (a + k) % M32
  {
  }

  lemma EvenMod(s: nat)
    requires s % 2 == 0
    ensures s % M32 % 4 + 2 <= 4
  {
    var b := s % M32;
    assert b % 2 == 0;
  }

  lemma ByteInLongword(b: Addr)
    ensures b % 4 + 1 <= 4
  {
  }

  /** So translating a piece's first byte translates all of it. */
  lemma PieceContiguous(c: Cfg, x: Pages, fc: FC, a: Addr, z: Size, i: nat, k: nat)
    requires Follows(c, x)
    requires i < Pieces(SplitOf(c, a, z), z)
    requires k < StepBytes(SplitOf(c, a, z), z)
    ensures var p := SplitOf(c, a, z);
            Plus(Phys(x, fc, PieceAddr(p, a, i)), k) == Phys(x, fc, Plus(a, Covered(p, z, i) + k))
  {
    PieceStart(c, a, z, i, k);
    var b := PieceAddr(SplitOf(c, a, z), a, i);
    if c.tcE {
      PieceInPage(c, a, z, i);
      hide SplitOf, PieceAddr, Crosses, Misal;
      SamePage(x, fc, b, k);
    } else {
      hide SplitOf, PieceAddr, Crosses, Misal;
    }
  }

  lemma SamePage(x: Pages, fc: FC, b: Addr, k: nat)
    requires x.on && k < 4 && b % (if x.big then 0x2000 else 0x1000) + k < if x.big then 0x2000 else 0x1000
    ensures Plus(Phys(x, fc, b), k) == Phys(x, fc, Plus(b, k))
  {
    NearPage(b, k);
    if b % PAGE + k >= PAGE {
      EvenPage(b, k);
      assert x.frame(fc, b / PAGE + 1) == x.frame(fc, b / PAGE) + 1;
    }
  }

  lemma NearPage(b: Addr, k: nat)
    requires k < 4
    ensures b % PAGE + k < PAGE ==> Plus(b, k) / PAGE == b / PAGE && Plus(b, k) % PAGE == b % PAGE + k
    ensures b % PAGE + k >= PAGE && b + k < M32 ==> Plus(b, k) / PAGE == b / PAGE + 1 && Plus(b, k) % PAGE == b % PAGE + k - PAGE
  {
  }

  lemma EvenPage(b: Addr, k: nat)
    requires k < 4 && b % PAGE + k >= PAGE && b % 0x2000 + k < 0x2000
    ensures (b / PAGE) % 2 == 0 && b + k < M32 && b / PAGE + 1 < PAGES
  {
  }

  // ---------------------------------------------------------------- writes

  /** A piece's data lanes are the store's bytes it covers. */
  lemma PieceLanes(c: Cfg, s: Store, i: nat, k: nat)
    requires i < Pieces(SplitOf(c, s.addr, s.size), s.size)
    requires k < StepBytes(SplitOf(c, s.addr, s.size), s.size)
    ensures var p := SplitOf(c, s.addr, s.size);
            && Covered(p, s.size, i) + k < Bytes(s.size)
            && Lane(PieceData(p, s.data, s.size, i), StepBytes(p, s.size) - 1 - k) == StByte(s, Covered(p, s.size, i) + k)
  {
  }

  lemma {:induction false} PiecePokes(c: Cfg, x: Pages, m: Mem, s: Store, i: nat, k: nat)
    requires Follows(c, x)
    requires i < Pieces(SplitOf(c, s.addr, s.size), s.size)
    requires k <= StepBytes(SplitOf(c, s.addr, s.size), s.size)
    ensures var p := SplitOf(c, s.addr, s.size);
            var n := Covered(p, s.size, i);
            && n + k <= Bytes(s.size)
            && Poke(Put(x, m, s, n), Phys(x, s.fc, PieceAddr(p, s.addr, i)), PieceData(p, s.data, s.size, i),
                    StepBytes(p, s.size), k) == Put(x, m, s, n + k)
  {
    PieceLanes(c, s, i, if k > 0 then k - 1 else 0);
    if k > 0 {
      PiecePokes(c, x, m, s, i, k - 1);
      PieceContiguous(c, x, s.fc, s.addr, s.size, i, k - 1);
      hide SplitOf, PieceAddr, PieceData, Crosses, Misal, Phys;
    }
  }

  /** Writing piece `i` on top of the first `i` pieces leaves memory as the first `i + 1` would. */
  lemma PieceWrites(c: Cfg, x: Pages, m: Mem, s: Store, i: nat)
    requires Follows(c, x)
    requires i < Pieces(SplitOf(c, s.addr, s.size), s.size)
    ensures var p := SplitOf(c, s.addr, s.size);
            var n := StepBytes(p, s.size);
            && Covered(p, s.size, i + 1) <= Bytes(s.size)
            && Poke(Put(x, m, s, Covered(p, s.size, i)), Phys(x, s.fc, PieceAddr(p, s.addr, i)),
                    PieceData(p, s.data, s.size, i), n, n) == Put(x, m, s, Covered(p, s.size, i + 1))
  {
    PiecePokes(c, x, m, s, i, StepBytes(SplitOf(c, s.addr, s.size), s.size));
    hide SplitOf, PieceAddr, PieceData, Crosses, Misal, Phys;
  }

  /** Memory after the port has written the first `i` pieces, one by one. */
  ghost function WritePieces(c: Cfg, x: Pages, m: Mem, s: Store, i: nat): Mem
    requires i <= Pieces(SplitOf(c, s.addr, s.size), s.size)
  {
    var p := SplitOf(c, s.addr, s.size);
    if i == 0 then m
    else Poke(WritePieces(c, x, m, s, i - 1), Phys(x, s.fc, PieceAddr(p, s.addr, i - 1)),
              PieceData(p, s.data, s.size, i - 1), StepBytes(p, s.size), StepBytes(p, s.size))
  }

  /** However it was split, a store whose pieces are all written is the whole store. */
  lemma {:induction false} SplitStoreIsWhole(c: Cfg, x: Pages, m: Mem, s: Store, i: nat)
    requires Follows(c, x) && i <= Pieces(SplitOf(c, s.addr, s.size), s.size)
    ensures var p := SplitOf(c, s.addr, s.size);
            && Covered(p, s.size, i) <= Bytes(s.size)
            && WritePieces(c, x, m, s, i) == Put(x, m, s, Covered(p, s.size, i))
            && (i == Pieces(p, s.size) ==> WritePieces(c, x, m, s, i) == Apply(x, m, s))
  {
    PiecesTile(c, s.addr, s.size);
    hide SplitOf, Crosses, Misal, Phys, PieceAddr, PieceData;
    if i > 0 {
      SplitStoreIsWhole(c, x, m, s, i - 1);
      PieceWrites(c, x, m, s, i - 1);
    }
  }

  // ---------------------------------------------------------------- reads

  /** The answer to a read of one piece: its low lanes are memory's bytes. */
  ghost predicate AnswersPiece(m: Mem, p: Addr, n: nat, w: Word)
    requires n <= 4
  {
    forall k :: 0 <= k < n ==> Lane(w, n - 1 - k) == m[Plus(p, k)]
  }

  /** `acc` holds the read's first `n` bytes, right-aligned. */
  ghost predicate Gathered(x: Pages, m: Mem, r: Read, n: nat, acc: Word) {
    n <= 4 && forall k :: 0 <= k < n ==> Lane(acc, n - 1 - k) == m[RdPhys(x, r, k)]
  }

  /** How a split can look: words for a longword only, never a split byte. */
  predicate Shape(p: Split, z: Size) { (p == Words ==> z == L) && (p == Bytewise ==> z != B) }

  lemma SplitShape(c: Cfg, a: Addr, z: Size)
    ensures Shape(SplitOf(c, a, z), z)
  {
  }

  lemma PieceByte(c: Cfg, x: Pages, m: Mem, r: Read, i: nat, w: Word, k: nat)
    requires Follows(c, x)
    requires i < Pieces(SplitOf(c, r.addr, r.size), r.size)
    requires k < StepBytes(SplitOf(c, r.addr, r.size), r.size)
    requires var p := SplitOf(c, r.addr, r.size);
             AnswersPiece(m, Phys(x, r.fc, PieceAddr(p, r.addr, i)), StepBytes(p, r.size), w)
    ensures var p := SplitOf(c, r.addr, r.size);
            Lane(w, StepBytes(p, r.size) - 1 - k) == m[RdPhys(x, r, Covered(p, r.size, i) + k)]
  {
    hide SplitOf, PieceAddr, Crosses, Misal, Phys, Lane;
    PieceContiguous(c, x, r.fc, r.addr, r.size, i, k);
  }

  lemma GatherLanes(p: Split, z: Size, i: nat, acc: Word, w: Word, k: nat)
    requires Shape(p, z) && i + 1 < Pieces(p, z) && k < Covered(p, z, i + 1)
    ensures var n, d := Covered(p, z, i), StepBytes(p, z);
            && n + d < 4
            && Lane(Gather(p, acc, w), n + d - 1 - k) == if k < n then Lane(acc, n - 1 - k) else Lane(w, d - 1 - (k - n))
  {
  }

  lemma AssembleLanes(p: Split, z: Size, acc: Word, w: Word, k: nat)
    requires Shape(p, z) && k < Bytes(z)
    ensures var d := StepBytes(p, z);
            var n := Bytes(z) - d;
            && n == Covered(p, z, Pieces(p, z) - 1)
            && Lane(Assemble(p, z, acc, w), n + d - 1 - k) == if k < n then Lane(acc, n - 1 - k) else Lane(w, d - 1 - (k - n))
  {
  }

  /** One more piece that is not the last. */
  lemma GatherOne(c: Cfg, x: Pages, m: Mem, r: Read, i: nat, acc: Word, w: Word)
    requires Follows(c, x)
    requires i + 1 < Pieces(SplitOf(c, r.addr, r.size), r.size)
    requires var p := SplitOf(c, r.addr, r.size);
             && Gathered(x, m, r, Covered(p, r.size, i), acc)
             && AnswersPiece(m, Phys(x, r.fc, PieceAddr(p, r.addr, i)), StepBytes(p, r.size), w)
    ensures var p := SplitOf(c, r.addr, r.size);
            Gathered(x, m, r, Covered(p, r.size, i + 1), Gather(p, acc, w))
  {
    SplitShape(c, r.addr, r.size);
    hide SplitOf, PieceAddr, Crosses, Misal, Phys, RdPhys, Gather, Lane;
    var p := SplitOf(c, r.addr, r.size);
    var n, d := Covered(p, r.size, i), StepBytes(p, r.size);
    GatherLanes(p, r.size, i, acc, w, 0);
    assert Covered(p, r.size, i + 1) == n + d;
    forall k | 0 <= k < n + d ensures Lane(Gather(p, acc, w), n + d - 1 - k) == m[RdPhys(x, r, k)] {
      GatherLanes(p, r.size, i, acc, w, k);
      if k >= n { PieceByte(c, x, m, r, i, w, k - n); }
    }
  }

  /** The last piece: the whole big-endian value is there. */
  lemma AssembleAll(c: Cfg, x: Pages, m: Mem, r: Read, i: nat, acc: Word, w: Word)
    requires Follows(c, x)
    requires i + 1 == Pieces(SplitOf(c, r.addr, r.size), r.size)
    requires var p := SplitOf(c, r.addr, r.size);
             && Gathered(x, m, r, Covered(p, r.size, i), acc)
             && AnswersPiece(m, Phys(x, r.fc, PieceAddr(p, r.addr, i)), StepBytes(p, r.size), w)
    ensures Answers(x, m, r, Assemble(SplitOf(c, r.addr, r.size), r.size, acc, w))
  {
    SplitShape(c, r.addr, r.size);
    hide SplitOf, PieceAddr, Crosses, Misal, Phys, RdPhys, Assemble, Lane;
    var p := SplitOf(c, r.addr, r.size);
    var n, d := Covered(p, r.size, i), StepBytes(p, r.size);
    AssembleLanes(p, r.size, acc, w, 0);
    forall k | 0 <= k < Bytes(r.size)
      ensures Lane(Assemble(p, r.size, acc, w), Bytes(r.size) - 1 - k) == m[RdPhys(x, r, k)]
    {
      AssembleLanes(p, r.size, acc, w, k);
      if k >= n { PieceByte(c, x, m, r, i, w, k - n); }
    }
  }
}
