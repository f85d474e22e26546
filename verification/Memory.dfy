/** Flat big-endian byte memory, the stores that change it, and address translation.

  A 32-bit register or bus word is kept as its four bytes, so that the concatenations and
  part-selects of the design are constructor applications.  `Addr` arithmetic wraps at 2^32.

  Translation is any map of 4K page frames, per function code: aliases are allowed, which is
  what makes a page-offset comparison of two accesses a conservative one. */
module Memory {
  const M32: nat := 0x1_0000_0000
  const PAGE: nat := 0x1000
  const PAGES: nat := 0x10_0000

  type Addr = a: nat | a < M32
  type Byte = b: nat | b < 256
  type FC = f: nat | f < 8
  type Mem = m: seq<Byte> | |m| == M32 ghost witness seq(M32, _ => 0)

  datatype Option<+T> = None | Some(value: T)
  datatype Size = B | W | L
  datatype Word = Word(b3: Byte, b2: Byte, b1: Byte, b0: Byte)

  const ZERO: Word := Word(0, 0, 0, 0)

  function Bytes(z: Size): (n: nat)
    ensures 1 <= n <= 4
  {
    match z case B => 1 case W => 2 case L => 4
  }

  /** Byte lane `k` of a word, lane 0 being bits 7..0. */
  function Lane(w: Word, k: nat): Byte
    requires k < 4
  {
    if k == 0 then w.b0 else if k == 1 then w.b1 else if k == 2 then w.b2 else w.b3
  }

  function Plus(a: Addr, k: nat): Addr {
    (a + k) % M32
  }

  lemma ModAdd(v: int, k: int)
    ensures (v % M32 + k) % M32 == (v + k) % M32
  {
  }

  lemma PlusPlus(a: Addr, i: nat, j: nat)
    ensures Plus(Plus(a, i), j) == Plus(a, i + j)
  {
    ModAdd(a + i, j);
  }

  function Pow2(n: nat): (p: nat)
    ensures p > 0
  {
    if n == 0 then 1 else 2 * Pow2(n - 1)
  }

  // ---------------------------------------------------------------- translation

  datatype Xlat = Xlat(on: bool, big: bool, frame: (FC, nat) -> nat)

  ghost predicate ValidXlat(x: Xlat) {
    && (forall fc: FC, p: nat :: p < PAGES ==> x.frame(fc, p) < PAGES)
    && (!x.on ==> forall fc: FC, p: nat :: p < PAGES ==> x.frame(fc, p) == p)
    && (x.on && x.big ==>
          forall fc: FC, p: nat :: p < PAGES && p % 2 == 1 ==> x.frame(fc, p) == x.frame(fc, p - 1) + 1)
  }

  type Pages = x: Xlat | ValidXlat(x) ghost witness Xlat(false, false, (_, p) => p)

  ghost function Phys(x: Pages, fc: FC, a: Addr): (p: Addr)
    ensures p % PAGE == a % PAGE
  {
    x.frame(fc, a / PAGE) * PAGE + a % PAGE
  }

  /** Translation off. */
  ghost function Flat(): Pages { Xlat(false, false, (_, p) => p) }

  lemma FlatIsFlat(fc: FC, a: Addr)
    ensures Phys(Flat(), fc, a) == a
  {
  }

  // ---------------------------------------------------------------- accesses

  datatype Store = Store(addr: Addr, size: Size, data: Word, fc: FC)
  datatype Read = Read(addr: Addr, size: Size, fc: FC)

  /** The store's byte `k`, byte 0 (the most significant) going to the lowest address. */
  function StByte(s: Store, k: nat): Byte
    requires k < Bytes(s.size)
  {
    Lane(s.data, Bytes(s.size) - 1 - k)
  }

  ghost function StPhys(x: Pages, s: Store, k: nat): Addr {
    Phys(x, s.fc, Plus(s.addr, k))
  }

  /** Memory with the first `k` bytes of `s` in it. */
  ghost function Put(x: Pages, m: Mem, s: Store, k: nat): Mem
    requires k <= Bytes(s.size)
  {
    if k == 0 then m else Put(x, m, s, k - 1)[StPhys(x, s, k - 1) := StByte(s, k - 1)]
  }

  ghost function Apply(x: Pages, m: Mem, s: Store): Mem {
    Put(x, m, s, Bytes(s.size))
  }

  /** Memory after a list of stores, oldest first. */
  ghost function ApplyAll(x: Pages, m: Mem, ss: seq<Store>): Mem {
    if ss == [] then m else Apply(x, ApplyAll(x, m, ss[..|ss| - 1]), ss[|ss| - 1])
  }

  ghost function RdPhys(x: Pages, r: Read, k: nat): Addr {
    Phys(x, r.fc, Plus(r.addr, k))
  }

  /** Does right-aligned `w` hold the bytes memory `m` has for the read `r`? */
  ghost predicate Answers(x: Pages, m: Mem, r: Read, w: Word) {
    forall k :: 0 <= k < Bytes(r.size) ==> Lane(w, Bytes(r.size) - 1 - k) == m[RdPhys(x, r, k)]
  }

  /** Two memories agree on every byte of the read. */
  ghost predicate Same(x: Pages, m: Mem, m': Mem, r: Read) {
    forall k :: 0 <= k < Bytes(r.size) ==> m[RdPhys(x, r, k)] == m'[RdPhys(x, r, k)]
  }

  /** No byte of the store is a byte of the read. */
  ghost predicate Apart(x: Pages, s: Store, r: Read) {
    forall j, k :: 0 <= j < Bytes(s.size) && 0 <= k < Bytes(r.size) ==> StPhys(x, s, j) != RdPhys(x, r, k)
  }

  // ---------------------------------------------------------------- laws of stores

  lemma {:induction false} PutKeeps(x: Pages, m: Mem, s: Store, k: nat, p: Addr)
    requires k <= Bytes(s.size)
    requires forall j :: 0 <= j < k ==> StPhys(x, s, j) != p
    ensures Put(x, m, s, k)[p] == m[p]
  {
    if k > 0 { PutKeeps(x, m, s, k - 1, p); }
  }

  /** Different bytes of one store differ in their page offset, so translation keeps them apart. */
  lemma BytesDiffer(x: Pages, s: Store, i: nat, j: nat)
    requires i < j < 4
    ensures StPhys(x, s, i) != StPhys(x, s, j)
  {
    assert Plus(s.addr, i) % PAGE != Plus(s.addr, j) % PAGE;
  }

  lemma {:induction false} PutWrites(x: Pages, m: Mem, s: Store, k: nat, j: nat)
    requires j < k <= Bytes(s.size)
    ensures Put(x, m, s, k)[StPhys(x, s, j)] == StByte(s, j)
  {
    if j < k - 1 {
      PutWrites(x, m, s, k - 1, j);
      BytesDiffer(x, s, j, k - 1);
    }
  }

  lemma ApartKeeps(x: Pages, m: Mem, s: Store, k: nat, r: Read)
    requires k <= Bytes(s.size) && Apart(x, s, r)
    ensures Same(x, m, Put(x, m, s, k), r)
  {
    forall i | 0 <= i < Bytes(r.size)
      ensures m[RdPhys(x, r, i)] == Put(x, m, s, k)[RdPhys(x, r, i)]
    {
      PutKeeps(x, m, s, k, RdPhys(x, r, i));
    }
  }

  lemma {:induction false} AllApartKeeps(x: Pages, m: Mem, ss: seq<Store>, r: Read)
    requires forall i :: 0 <= i < |ss| ==> Apart(x, ss[i], r)
    ensures Same(x, m, ApplyAll(x, m, ss), r)
  {
    if ss != [] {
      var rest := ss[..|ss| - 1];
      AllApartKeeps(x, m, rest, r);
      ApartKeeps(x, ApplyAll(x, m, rest), ss[|ss| - 1], Bytes(ss[|ss| - 1].size), r);
    }
  }

  lemma {:induction false} ApplyAllJoins(x: Pages, m: Mem, ss: seq<Store>, ts: seq<Store>)
    ensures ApplyAll(x, m, ss + ts) == ApplyAll(x, ApplyAll(x, m, ss), ts)
  {
    if ts == [] {
      assert ss + ts == ss;
    } else {
      var t := ts[..|ts| - 1];
      ApplyAllJoins(x, m, ss, t);
      assert (ss + ts)[..|ss + ts| - 1] == ss + t;
    }
  }

  /** Finishing a half-written store is writing the whole of it. */
  lemma {:induction false} PutResumes(x: Pages, m: Mem, s: Store, k: nat, p: Addr)
    requires k <= Bytes(s.size)
    ensures Apply(x, Put(x, m, s, k), s)[p] == Apply(x, m, s)[p]
  {
    var n := Bytes(s.size);
    if j :| 0 <= j < n && StPhys(x, s, j) == p {
      PutWrites(x, m, s, n, j);
      PutWrites(x, Put(x, m, s, k), s, n, j);
    } else {
      PutKeeps(x, m, s, n, p);
      PutKeeps(x, m, s, k, p);
      PutKeeps(x, Put(x, m, s, k), s, n, p);
    }
  }

  lemma ResumeAll(x: Pages, m: Mem, s: Store, k: nat)
    requires k <= Bytes(s.size)
    ensures Apply(x, Put(x, m, s, k), s) == Apply(x, m, s)
  {
    forall p: Addr ensures Apply(x, Put(x, m, s, k), s)[p] == Apply(x, m, s)[p] {
      PutResumes(x, m, s, k, p);
    }
  }
}
