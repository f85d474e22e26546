/** Bitfields in memory and in a register.  A bit vector is a sequence with its most significant bit first, which is
  the order a bitfield's bits are numbered in. */
module Bitfield {
  import opened Memory
  import opened Vectors

  type Long = v: Bits | |v| == 32 witness seq(32, _ => false)
  type Window = v: Bits | |v| == 64 witness seq(64, _ => false)

  // ---------------------------------------------------------------- vectors and bytes

  /** Each bit of `v` where `mask` is set, of `w` where it is clear. */
  function Mix(mask: Bits, v: Bits, w: Bits): (r: Bits)
    requires |mask| == |v| == |w|
    ensures |r| == |v| && forall i :: 0 <= i < |r| ==> r[i] == if mask[i] then v[i] else w[i]
  {
    seq(|v|, i requires 0 <= i < |v| => if mask[i] then v[i] else w[i])
  }

  /** Bits `lo` up to `hi` of `n` set. */
  function Run(n: nat, lo: nat, hi: nat): (r: Bits)
    ensures |r| == n && forall i :: 0 <= i < n ==> r[i] == (lo <= i < hi)
  {
    seq(n, i => lo <= i < hi)
  }

  function Zeros(n: nat): (r: Bits)
    ensures |r| == n && forall i :: 0 <= i < n ==> !r[i]
  {
    Run(n, 0, 0)
  }

  function ToBits(b: nat, n: nat): (v: Bits)
    ensures |v| == n
  {
    if n == 0 then [] else ToBits(b / 2, n - 1) + [b % 2 == 1]
  }

  function OfBits(v: Bits): nat {
    if v == [] then 0 else 2 * OfBits(v[..|v| - 1]) + if v[|v| - 1] then 1 else 0
  }

  lemma {:induction false} OfBitsBound(v: Bits)
    ensures OfBits(v) < Pow2(|v|)
  {
    if v != [] { OfBitsBound(v[..|v| - 1]); }
  }

  lemma {:induction false} BitsOfBits(v: Bits)
    ensures ToBits(OfBits(v), |v|) == v
  {
    if v != [] {
      var u := v[..|v| - 1];
      BitsOfBits(u);
      assert OfBits(v) / 2 == OfBits(u);
      assert v == u + [v[|v| - 1]];
    }
  }

  function ByteOf(v: Bits): Byte
    requires |v| == 8
  {
    OfBitsBound(v);
    assert Pow2(8) == 256;
    OfBits(v)
  }

  function ByteBits(b: Byte): (v: Bits)
    ensures |v| == 8
  {
    ToBits(b, 8)
  }

  function WordBits(w: Word): (v: Long) { ByteBits(w.b3) + ByteBits(w.b2) + ByteBits(w.b1) + ByteBits(w.b0) }

  // ---------------------------------------------------------------- the operation

  datatype Op = Tst | Extu | Chg | Exts | Clr | Ffo | Set | Ins

  predicate Modifies(op: Op) { op == Chg || op == Clr || op == Set || op == Ins }

  /** Flags, the result or new register field, where BFFFO found a one, and the window with the new field in it. */
  datatype Res = Res(n: bool, z: bool, val: Long, found: nat, nw: Window)

  function Low32(v: Window): Long { v[32..] }

  function High32(v: Window): Long { v[..32] }

  /** Leading zeros of a left-aligned value. */
  function Clz(v: Bits): (k: nat)
    ensures k <= |v| && (forall i :: 0 <= i < k ==> !v[i]) && (k < |v| ==> v[k])
  {
    if v == [] || v[0] then 0 else 1 + Clz(v[1..])
  }

  function NewField(op: Op, field: Long, du: Long, ones: Long): Long {
    match op
    case Chg => And(Not(field), ones)
    case Clr => Zeros(32)
    case Set => ones
    case _ => And(du, ones)
  }

  /** Field of `w` bits, 1 to 32, at bit `o` of the window; `du` is BFINS's register. */
  function Eval(op: Op, win: Window, o: nat, w: nat, du: Long): Res
    requires o < 32 && 1 <= w <= 32
  {
    var fl: Long := High32(Sooner(win, o));
    var ones: Long := Run(32, 32 - w, 32);
    var field: Long := Later(fl, 32 - w);
    var nf := NewField(op, field, du, ones);
    var m64 := Later(Run(32, 0, w) + Zeros(32), o);
    var n64 := Later(Sooner(nf, 32 - w) + Zeros(32), o);
    var al := And(fl, Run(32, 0, w));
    Res(if op == Ins then nf[32 - w] else field[32 - w],
        if op == Ins then nf == Zeros(32) else field == Zeros(32),
        if op == Extu then field
        else if op == Exts then Or(field, if field[32 - w] then Not(ones) else Zeros(32))
        else Or(Or(And(High32(win), Not(Or(High32(m64), Low32(m64)))), And(High32(n64), High32(m64))), And(Low32(n64), Low32(m64))),
        if al == Zeros(32) then w else Clz(al),
        Mix(m64, n64, win))
  }

  /** BFFFO's result. */
  function Found(off: int, r: Res): Addr { (off + r.found) % M32 }

  // ---------------------------------------------------------------- the memory form

  /** Offsets are signed and of 32 bits. */
  predicate ValidOffset(off: int) { -0x8000_0000 <= off < 0x8000_0000 }

  function FieldAddr(ea: Addr, off: int): Addr { (ea + off / 8) % M32 }

  function FieldBytes(off: int, w: nat): nat { (off % 8 + w + 7) / 8 }

  /** The reads: the bytes holding the field, a byte after a word or longword where they are three or five. */
  function FirstSize(n: nat): Size { if n == 1 then B else if n <= 3 then W else L }

  function SecondAt(n: nat): nat { if n == 3 then 2 else 4 }

  function HasSecond(n: nat): bool { n == 3 || n == 5 }

  /** The bytes read, left-aligned. */
  function Win(n: nat, dv: Word, sb: Byte): Window {
    if n == 1 then ByteBits(dv.b0) + Zeros(56)
    else if n == 2 then ByteBits(dv.b1) + ByteBits(dv.b0) + Zeros(48)
    else if n == 3 then ByteBits(dv.b1) + ByteBits(dv.b0) + ByteBits(sb) + Zeros(40)
    else if n == 4 then WordBits(dv) + Zeros(32)
    else WordBits(dv) + ByteBits(sb) + Zeros(24)
  }

  /** Byte `k` of the window. */
  function WinByte(v: Window, k: nat): Byte
    requires k < 8
  {
    ByteOf(v[8 * k..8 * k + 8])
  }

  /** The stores of a modifying operation. */
  function FieldStores(n: nat, a: Addr, fc: FC, nw: Window): seq<Store> {
    var first :=
      if n == 1 then Store(a, B, Word(0, 0, 0, WinByte(nw, 0)), fc)
      else if n <= 3 then Store(a, W, Word(0, 0, WinByte(nw, 0), WinByte(nw, 1)), fc)
      else Store(a, L, Word(WinByte(nw, 0), WinByte(nw, 1), WinByte(nw, 2), WinByte(nw, 3)), fc);
    if HasSecond(n) then
      [first, Store(Plus(a, SecondAt(n)), B, Word(0, 0, 0, WinByte(nw, if n == 3 then 2 else 4)), fc)]
    else [first]
  }

  // ---------------------------------------------------------------- what a field is

  /** The byte of memory that bit `i`, counted from the byte at `ea`, is in. */
  ghost function BitByte(x: Pages, fc: FC, ea: Addr, i: int): Addr { Phys(x, fc, (ea + i / 8) % M32) }

  ghost function MemBit(x: Pages, m: Mem, fc: FC, ea: Addr, i: int): bool {
    ByteBits(m[BitByte(x, fc, ea, i)])[i % 8]
  }

  /** Bit `i` of the field at offset `off`. */
  ghost function FieldBit(x: Pages, m: Mem, fc: FC, ea: Addr, off: int, i: nat): bool { MemBit(x, m, fc, ea, off + i) }

  /** Bit `j` of the byte `p` of memory is the field's bit `i`. */
  ghost predicate IsBit(x: Pages, fc: FC, ea: Addr, off: int, i: nat, p: Addr, j: nat) {
    p == BitByte(x, fc, ea, off + i) && j == (off + i) % 8
  }

  ghost predicate InField(x: Pages, fc: FC, ea: Addr, off: int, w: nat, p: Addr, j: nat) {
    exists i: nat :: i < w && IsBit(x, fc, ea, off, i, p, j)
  }

  /** Memory `m1` has the low `w` bits of `nf` in the field, and is `m` in every bit that is not the field's. */
  ghost predicate FieldSet(x: Pages, m: Mem, m1: Mem, fc: FC, ea: Addr, off: int, w: nat, nf: Long)
    requires w <= 32
  {
    && (forall i: nat :: i < w ==> FieldBit(x, m1, fc, ea, off, i) == nf[32 - w + i])
    && (forall p: Addr, j: nat :: j < 8 && !InField(x, fc, ea, off, w, p, j) ==> ByteBits(m1[p])[j] == ByteBits(m[p])[j])
  }

  /** The field's bits, right-aligned in 32 with zeros above. */
  ghost predicate IsField(x: Pages, m: Mem, fc: FC, ea: Addr, off: int, w: nat, field: Long)
    requires w <= 32
  {
    forall i :: 0 <= i < 32 ==> field[i] == (i >= 32 - w && MemBit(x, m, fc, ea, off + (i - (32 - w))))
  }

  // ---------------------------------------------------------------- evaluation, bit by bit

  /** Bit `i` of the field in the window. */
  lemma EvalField(op: Op, win: Window, o: nat, w: nat, du: Long)
    requires o < 32 && 1 <= w <= 32
    ensures var field: Long := Later(High32(Sooner(win, o)), 32 - w);
            forall i :: 0 <= i < 32 ==> field[i] == (i >= 32 - w && win[o + (i - (32 - w))])
  {
    hide Sooner, Later;
  }

  /** The new window: the new field in the field's place, every other bit as it was. */
  lemma EvalWindow(op: Op, win: Window, o: nat, w: nat, du: Long)
    requires o < 32 && 1 <= w <= 32
    ensures var field: Long := Later(High32(Sooner(win, o)), 32 - w);
            var nf := NewField(op, field, du, Run(32, 32 - w, 32));
            forall i :: 0 <= i < 64 ==> Eval(op, win, o, w, du).nw[i] == if o <= i < o + w then nf[32 - w + (i - o)] else win[i]
  {
    hide Sooner, Later, Run, Mix, NewField, Clz, And, Or, Not;
    var field: Long := Later(High32(Sooner(win, o)), 32 - w);
    var nf := NewField(op, field, du, Run(32, 32 - w, 32));
    var m64, n64 := Later(Run(32, 0, w) + Zeros(32), o), Later(Sooner(nf, 32 - w) + Zeros(32), o);
    assert forall i :: 0 <= i < 64 ==> m64[i] == (o <= i < o + w);
    assert forall i :: o <= i < o + w ==> n64[i] == nf[32 - w + (i - o)];
  }

  // ---------------------------------------------------------------- the bytes a field touches

  predicate HoldsBit(o: nat, w: nat, k: nat) { 8 * k < o + w && o < 8 * (k + 1) }

  /** One to five bytes, each of them holding a bit of the field, and the field in them. */
  lemma JustTheField(off: int, w: nat)
    requires 1 <= w <= 32
    ensures var o, n := off % 8, FieldBytes(off, w);
            1 <= n <= 5 && o + w <= 8 * n && forall k: nat :: k < n ==> HoldsBit(o, w, k)
  {
  }

  /** The byte at `a` + `k`. */
  ghost function At(x: Pages, m: Mem, fc: FC, a: Addr, k: nat): Byte { m[Phys(x, fc, Plus(a, k))] }

  /** The window holds the `n` bytes read. */
  ghost predicate Holds(x: Pages, m: Mem, fc: FC, a: Addr, n: nat, win: Window)
    requires n <= 8
  {
    forall k, j :: 0 <= k < n && 0 <= j < 8 ==> win[8 * k + j] == ByteBits(At(x, m, fc, a, k))[j]
  }

  ghost predicate ReadRight(x: Pages, m: Mem, fc: FC, a: Addr, n: nat, dv: Word, sb: Byte) {
    && Answers(x, m, Read(a, FirstSize(n), fc), dv)
    && (HasSecond(n) ==> Answers(x, m, Read(Plus(a, SecondAt(n)), B, fc), Word(0, 0, 0, sb)))
  }

  lemma AnswerByte(x: Pages, m: Mem, r: Read, w: Word, k: nat)
    requires Answers(x, m, r, w) && k < Bytes(r.size)
    ensures Lane(w, Bytes(r.size) - 1 - k) == At(x, m, r.fc, r.addr, k)
  {
    assert RdPhys(x, r, k) == Phys(x, r.fc, Plus(r.addr, k));
    hide Phys;
  }

  lemma SecondByte(x: Pages, m: Mem, fc: FC, a: Addr, k: nat, sb: Byte)
    requires Answers(x, m, Read(Plus(a, k), B, fc), Word(0, 0, 0, sb)) && k < 8
    ensures sb == At(x, m, fc, a, k)
  {
    AnswerByte(x, m, Read(Plus(a, k), B, fc), Word(0, 0, 0, sb), 0);
    assert Plus(Plus(a, k), 0) == Plus(a, k);
  }

  lemma WindowHolds(x: Pages, m: Mem, fc: FC, a: Addr, n: nat, dv: Word, sb: Byte)
    requires 1 <= n <= 5 && ReadRight(x, m, fc, a, n, dv, sb)
    ensures Holds(x, m, fc, a, n, Win(n, dv, sb))
  {
    hide Answers, At, ByteBits, Plus;
    var r := Read(a, FirstSize(n), fc);
    AnswerByte(x, m, r, dv, 0);
    if n >= 2 { AnswerByte(x, m, r, dv, 1); }
    if n >= 4 {
      AnswerByte(x, m, r, dv, 2);
      AnswerByte(x, m, r, dv, 3);
    }
    if HasSecond(n) { SecondByte(x, m, fc, a, SecondAt(n), sb); }
  }

  // ---------------------------------------------------------------- reading

  lemma BitPlace(ea: Addr, off: int, i: nat)
    ensures var o := off % 8;
            (ea + (off + i) / 8) % M32 == Plus(FieldAddr(ea, off), (o + i) / 8) && (off + i) % 8 == (o + i) % 8
  {
    var q, o := off / 8, off % 8;
    assert off + i == 8 * q + (o + i);
    assert (8 * q + (o + i)) / 8 == q + (o + i) / 8;
    assert ((ea + q) % M32 + (o + i) / 8) % M32 == (ea + q + (o + i) / 8) % M32;
  }

  /** Bit `o` + `i` of the window is bit `off` + `i` of memory. */
  lemma WindowBit(x: Pages, m: Mem, fc: FC, ea: Addr, off: int, n: nat, win: Window, i: nat)
    requires n <= 5 && Holds(x, m, fc, FieldAddr(ea, off), n, win) && off % 8 + i < 8 * n
    ensures win[off % 8 + i] == MemBit(x, m, fc, ea, off + i)
  {
    hide ByteBits, Phys, Plus, FieldAddr;
    BitPlace(ea, off, i);
    var k, j := (off % 8 + i) / 8, (off % 8 + i) % 8;
    assert win[8 * k + j] == ByteBits(At(x, m, fc, FieldAddr(ea, off), k))[j];
  }

  /** A field in memory, at any signed offset and any width: what is evaluated is exactly its bits. */
  lemma FieldIsRead(x: Pages, m: Mem, fc: FC, ea: Addr, off: int, w: nat, dv: Word, sb: Byte)
    requires ValidOffset(off) && 1 <= w <= 32
    requires ReadRight(x, m, fc, FieldAddr(ea, off), FieldBytes(off, w), dv, sb)
    ensures var win := Win(FieldBytes(off, w), dv, sb);
            IsField(x, m, fc, ea, off, w, Later(High32(Sooner(win, off % 8)), 32 - w))
  {
    hide Answers, ByteBits, Sooner, Later, Win, MemBit, FieldAddr;
    var n := FieldBytes(off, w);
    JustTheField(off, w);
    WindowHolds(x, m, fc, FieldAddr(ea, off), n, dv, sb);
    var win := Win(n, dv, sb);
    EvalField(Tst, win, off % 8, w, Zeros(32));
    var field: Long := Later(High32(Sooner(win, off % 8)), 32 - w);
    forall i | 0 <= i < 32 ensures field[i] == (i >= 32 - w && MemBit(x, m, fc, ea, off + (i - (32 - w)))) {
      if i >= 32 - w { WindowBit(x, m, fc, ea, off, n, win, i - (32 - w)); }
    }
  }

  // ---------------------------------------------------------------- writing

  lemma NearbyApart(x: Pages, fc: FC, a: Addr, j: nat, k: nat)
    requires j < 8 && k < 8 && j != k
    ensures Phys(x, fc, Plus(a, j)) != Phys(x, fc, Plus(a, k))
  {
    assert Plus(a, j) % PAGE != Plus(a, k) % PAGE;
  }

  lemma StoreWrites(x: Pages, m: Mem, s: Store, a: Addr, d: nat, k: nat)
    requires s.addr == Plus(a, d) && d + Bytes(s.size) <= 8 && k < 8
    ensures Apply(x, m, s)[Phys(x, s.fc, Plus(a, k))]
              == if d <= k < d + Bytes(s.size) then StByte(s, k - d) else At(x, m, s.fc, a, k)
  {
    hide Phys, Plus, Put, StByte;
    var n, p := Bytes(s.size), Phys(x, s.fc, Plus(a, k));
    if d <= k < d + n {
      PlusPlus(a, d, k - d);
      PutWrites(x, m, s, n, k - d);
    } else {
      forall j | 0 <= j < n ensures StPhys(x, s, j) != p {
        PlusPlus(a, d, j);
        NearbyApart(x, s.fc, a, d + j, k);
      }
      PutKeeps(x, m, s, n, p);
    }
  }

  lemma StoreKeeps(x: Pages, m: Mem, s: Store, a: Addr, d: nat, n: nat, p: Addr)
    requires s.addr == Plus(a, d) && d + Bytes(s.size) <= n
    requires forall k: nat :: k < n ==> p != Phys(x, s.fc, Plus(a, k))
    ensures Apply(x, m, s)[p] == m[p]
  {
    hide Phys, Plus, Put;
    forall j | 0 <= j < Bytes(s.size) ensures StPhys(x, s, j) != p {
      PlusPlus(a, d, j);
    }
    PutKeeps(x, m, s, Bytes(s.size), p);
  }

  /** Memory after the stores. */
  ghost function Stored(x: Pages, m: Mem, n: nat, a: Addr, fc: FC, nw: Window): Mem {
    var ss := FieldStores(n, a, fc, nw);
    var m1 := Apply(x, m, ss[0]);
    if HasSecond(n) then Apply(x, m1, ss[1]) else m1
  }

  lemma StoredIsAll(x: Pages, m: Mem, n: nat, a: Addr, fc: FC, nw: Window)
    ensures Stored(x, m, n, a, fc, nw) == ApplyAll(x, m, FieldStores(n, a, fc, nw))
  {
    hide Apply, WinByte;
    var ss := FieldStores(n, a, fc, nw);
    assert ApplyAll(x, m, ss[..1]) == Apply(x, m, ss[0]) by { assert ss[..1][..0] == []; }
    assert ss[..|ss|] == ss;
  }

  /** The `n` bytes of the window, and nothing else. */
  lemma StoresWindow(x: Pages, m: Mem, n: nat, a: Addr, fc: FC, nw: Window, k: nat)
    requires 1 <= n <= 5 && k < n
    ensures At(x, Stored(x, m, n, a, fc, nw), fc, a, k) == WinByte(nw, k)
  {
    hide Apply, WinByte, Phys;
    var ss := FieldStores(n, a, fc, nw);
    assert Plus(a, 0) == a;
    StoreWrites(x, m, ss[0], a, 0, k);
    if HasSecond(n) { StoreWrites(x, Apply(x, m, ss[0]), ss[1], a, SecondAt(n), k); }
    hide Plus;
  }

  lemma StoresNoMore(x: Pages, m: Mem, n: nat, a: Addr, fc: FC, nw: Window, p: Addr)
    requires 1 <= n <= 5 && forall k: nat :: k < n ==> p != Phys(x, fc, Plus(a, k))
    ensures Stored(x, m, n, a, fc, nw)[p] == m[p]
  {
    hide Apply, WinByte, Phys;
    var ss := FieldStores(n, a, fc, nw);
    assert Plus(a, 0) == a;
    StoreKeeps(x, m, ss[0], a, 0, n, p);
    if HasSecond(n) { StoreKeeps(x, Apply(x, m, ss[0]), ss[1], a, SecondAt(n), n, p); }
  }

  lemma WinByteBits(v: Window, k: nat, j: nat)
    requires k < 8 && j < 8
    ensures ByteBits(WinByte(v, k))[j] == v[8 * k + j]
  {
    BitsOfBits(v[8 * k..8 * k + 8]);
  }

  /** A modifying operation in memory, at any signed offset and any width: the field's bits become the new field, and
    every other bit of memory, in the field's bytes and out of them, is as it was. */
  lemma FieldIsWritten(op: Op, x: Pages, m: Mem, fc: FC, ea: Addr, off: int, w: nat, dv: Word, sb: Byte, du: Long)
    requires ValidOffset(off) && 1 <= w <= 32
    requires ReadRight(x, m, fc, FieldAddr(ea, off), FieldBytes(off, w), dv, sb)
    ensures var n := FieldBytes(off, w);
            var win := Win(n, dv, sb);
            var field: Long := Later(High32(Sooner(win, off % 8)), 32 - w);
            FieldSet(x, m, Stored(x, m, n, FieldAddr(ea, off), fc, Eval(op, win, off % 8, w, du).nw), fc, ea, off, w,
                     NewField(op, field, du, Run(32, 32 - w, 32)))
  {
    hide Answers, Sooner, Later, Win, FieldAddr, Eval, NewField, Stored, Holds, FieldSet, Run;
    var n, a, o := FieldBytes(off, w), FieldAddr(ea, off), off % 8;
    JustTheField(off, w);
    WindowHolds(x, m, fc, a, n, dv, sb);
    var win := Win(n, dv, sb);
    var field: Long := Later(High32(Sooner(win, o)), 32 - w);
    EvalWindow(op, win, o, w, du);
    var nw := Eval(op, win, o, w, du).nw;
    WrittenHolds(x, m, n, a, fc, nw);
    WindowSets(x, m, fc, ea, off, w, win, nw, NewField(op, field, du, Run(32, 32 - w, 32)));
  }

  lemma WindowSets(x: Pages, m: Mem, fc: FC, ea: Addr, off: int, w: nat, win: Window, nw: Window, nf: Long)
    requires 1 <= w <= 32
    requires var n, a := FieldBytes(off, w), FieldAddr(ea, off);
             1 <= n <= 5 && off % 8 + w <= 8 * n && Holds(x, m, fc, a, n, win)
             && Holds(x, Stored(x, m, n, a, fc, nw), fc, a, n, nw)
    requires forall i :: 0 <= i < 64 ==> nw[i] == if off % 8 <= i < off % 8 + w then nf[32 - w + (i - off % 8)] else win[i]
    ensures FieldSet(x, m, Stored(x, m, FieldBytes(off, w), FieldAddr(ea, off), fc, nw), fc, ea, off, w, nf)
  {
    hide ByteBits, FieldAddr, Stored, Phys, Plus, IsBit, MemBit, FieldBytes;
    var n, a, o := FieldBytes(off, w), FieldAddr(ea, off), off % 8;
    var m1 := Stored(x, m, n, a, fc, nw);
    forall i: nat | i < w ensures FieldBit(x, m1, fc, ea, off, i) == nf[32 - w + i] {
      WindowBit(x, m1, fc, ea, off, n, nw, i);
    }
    forall p: Addr, j: nat | j < 8 && !InField(x, fc, ea, off, w, p, j) ensures ByteBits(m1[p])[j] == ByteBits(m[p])[j] {
      OtherBits(x, m, fc, ea, off, w, win, nw, p, j);
    }
  }

  lemma OtherBits(x: Pages, m: Mem, fc: FC, ea: Addr, off: int, w: nat, win: Window, nw: Window, p: Addr, j: nat)
    requires 1 <= w <= 32 && j < 8 && !InField(x, fc, ea, off, w, p, j)
    requires var n, a := FieldBytes(off, w), FieldAddr(ea, off);
             1 <= n <= 5 && Holds(x, m, fc, a, n, win) && Holds(x, Stored(x, m, n, a, fc, nw), fc, a, n, nw)
    requires forall i :: 0 <= i < 64 ==> (off % 8 <= i < off % 8 + w) || nw[i] == win[i]
    ensures ByteBits(Stored(x, m, FieldBytes(off, w), FieldAddr(ea, off), fc, nw)[p])[j] == ByteBits(m[p])[j]
  {
    hide ByteBits, FieldAddr, Stored, Phys, Plus, IsBit, FieldBytes;
    var n, a, o := FieldBytes(off, w), FieldAddr(ea, off), off % 8;
    var m1 := Stored(x, m, n, a, fc, nw);
    if k: nat :| k < n && p == Phys(x, fc, Plus(a, k)) {
      assert nw[8 * k + j] == ByteBits(At(x, m1, fc, a, k))[j];
      assert win[8 * k + j] == ByteBits(At(x, m, fc, a, k))[j];
      if o <= 8 * k + j < o + w {
        IsThere(x, fc, ea, off, 8 * k + j - o, k, j);
      }
    } else {
      StoresNoMore(x, m, n, a, fc, nw, p);
    }
  }

  lemma IsThere(x: Pages, fc: FC, ea: Addr, off: int, i: nat, k: nat, j: nat)
    requires off % 8 + i == 8 * k + j && j < 8
    ensures IsBit(x, fc, ea, off, i, Phys(x, fc, Plus(FieldAddr(ea, off), k)), j)
  {
    BitPlace(ea, off, i);
    hide Phys;
  }

  lemma WrittenHolds(x: Pages, m: Mem, n: nat, a: Addr, fc: FC, nw: Window)
    requires 1 <= n <= 5
    ensures Holds(x, Stored(x, m, n, a, fc, nw), fc, a, n, nw)
  {
    hide Stored, WinByte, ByteBits, At;
    forall k, j | 0 <= k < n && 0 <= j < 8
      ensures nw[8 * k + j] == ByteBits(At(x, Stored(x, m, n, a, fc, nw), fc, a, k))[j]
    {
      StoresWindow(x, m, n, a, fc, nw, k);
      WinByteBits(nw, k, j);
    }
  }

  /** The operation's effect on one bit of the field: what becomes of the bit `b`, `d` being BFINS's for that place. */
  ghost predicate BitBecomes(op: Op, b: bool, d: bool, b1: bool) {
    && (op == Chg ==> b1 == !b) && (op == Clr ==> !b1) && (op == Set ==> b1) && (op == Ins ==> b1 == d)
  }

  lemma NewBit(op: Op, field: Long, du: Long, w: nat, i: nat)
    requires Modifies(op) && 1 <= w <= 32 && i < w
    ensures BitBecomes(op, field[32 - w + i], du[32 - w + i], NewField(op, field, du, Run(32, 32 - w, 32))[32 - w + i])
  {
  }

  /** Bit `j` of a byte of memory counts from the most significant. */
  lemma {:induction false} BitWeight(b: nat, n: nat, j: nat)
    requires j < n
    ensures ToBits(b, n)[j] == (b / Pow2(n - 1 - j) % 2 == 1)
  {
    if j < n - 1 {
      BitWeight(b / 2, n - 1, j);
      DivDiv(b, Pow2(n - 2 - j));
    }
  }

  lemma DivDiv(b: nat, p: nat)
    requires p > 0
    ensures b / 2 / p == b / (2 * p)
  {
    var q := b / (2 * p);
    var r := b % (2 * p);
    assert b == 2 * (p * q) + r;
    assert b / 2 == p * q + r / 2 && r / 2 < p;
    DivUnique(b / 2, p, q, r / 2);
  }

  lemma DivUnique(v: nat, p: nat, q: nat, r: nat)
    requires r < p && v == p * q + r
    ensures v / p == q
  {
    var t, s := v / p, v % p;
    AtLeast(p, t - q);
    assert p * (t - q) == r - s;
  }

  lemma AtLeast(p: nat, d: int)
    ensures (d > 0 ==> p * d >= p) && (d < 0 ==> p * d <= 0 - p)
  {
  }

  /** The bit of memory that is bit `i` of the field at `off`: bit 7 of the byte at `ea` is the one at offset 0. */
  ghost function BitAt(x: Pages, m: Mem, fc: FC, ea: Addr, off: int, i: nat): bool {
    m[Phys(x, fc, (ea + (off + i) / 8) % M32)] / Pow2(7 - (off + i) % 8) % 2 == 1
  }

  lemma FieldBitIs(x: Pages, m: Mem, fc: FC, ea: Addr, off: int, i: nat)
    ensures FieldBit(x, m, fc, ea, off, i) == BitAt(x, m, fc, ea, off, i)
  {
    hide ToBits, Phys;
    BitWeight(m[BitByte(x, fc, ea, off + i)], 8, (off + i) % 8);
  }

  /** A modifying operation in memory, at any signed offset and any width: each bit of the field becomes what the
    operation makes of it, and no other bit of memory changes. */
  lemma FieldBecomes(op: Op, x: Pages, m: Mem, fc: FC, ea: Addr, off: int, w: nat, dv: Word, sb: Byte, du: Long)
    requires ValidOffset(off) && 1 <= w <= 32 && Modifies(op)
    requires ReadRight(x, m, fc, FieldAddr(ea, off), FieldBytes(off, w), dv, sb)
    ensures var n := FieldBytes(off, w);
            var nw := Eval(op, Win(n, dv, sb), off % 8, w, du).nw;
            var m1 := ApplyAll(x, m, FieldStores(n, FieldAddr(ea, off), fc, nw));
            && (forall i: nat :: i < w ==>
                  BitBecomes(op, BitAt(x, m, fc, ea, off, i), du[32 - w + i], BitAt(x, m1, fc, ea, off, i)))
            && (forall p: Addr, j: nat :: j < 8 && !InField(x, fc, ea, off, w, p, j) ==> ByteBits(m1[p])[j] == ByteBits(m[p])[j])
  {
    hide Answers, Sooner, Later, Win, FieldAddr, Eval, NewField, Stored, Run, FieldBit, BitAt, BitBecomes, InField, ByteBits, ApplyAll,
      MemBit, ReadRight, FieldBytes, FieldStores;
    var n := FieldBytes(off, w);
    var win := Win(n, dv, sb);
    var nw := Eval(op, win, off % 8, w, du).nw;
    StoredIsAll(x, m, n, FieldAddr(ea, off), fc, nw);
    FieldIsWritten(op, x, m, fc, ea, off, w, dv, sb, du);
    FieldIsRead(x, m, fc, ea, off, w, dv, sb);
    var field: Long := Later(High32(Sooner(win, off % 8)), 32 - w);
    var m1 := Stored(x, m, n, FieldAddr(ea, off), fc, nw);
    forall i: nat | i < w ensures BitBecomes(op, BitAt(x, m, fc, ea, off, i), du[32 - w + i], BitAt(x, m1, fc, ea, off, i)) {
      NewBit(op, field, du, w, i);
      FieldBitIs(x, m, fc, ea, off, i);
      FieldBitIs(x, m1, fc, ea, off, i);
      FieldHas(x, m, fc, ea, off, w, field, i);
    }
  }

  lemma FieldHas(x: Pages, m: Mem, fc: FC, ea: Addr, off: int, w: nat, field: Long, i: nat)
    requires w <= 32 && i < w && IsField(x, m, fc, ea, off, w, field)
    ensures field[32 - w + i] == FieldBit(x, m, fc, ea, off, i)
  {
    hide MemBit;
    assert off + (32 - w + i - (32 - w)) == off + i;
  }

  // ---------------------------------------------------------------- results

  /** The field of an evaluation, right-aligned. */
  function FieldOf(win: Window, o: nat, w: nat): Long
    requires w <= 32
  {
    Later(High32(Sooner(win, o)), 32 - w)
  }

  /** Flags and results by the field: BFEXTU's is it, BFEXTS's has its top bit above it, BFFFO counts from the offset to
    the first one, and to past the field if there is none. */
  lemma EvalResult(op: Op, win: Window, o: nat, w: nat, du: Long, off: int)
    requires o < 32 && 1 <= w <= 32
    ensures var r, f := Eval(op, win, o, w, du), FieldOf(win, o, w);
            && (op != Ins ==> r.n == f[32 - w] && (r.z <==> true !in f))
            && (op == Ins ==> r.n == du[32 - w] && (r.z <==> true !in du[32 - w..]))
            && (op == Extu ==> r.val == f)
            && (op == Exts ==> forall i :: 0 <= i < 32 ==> r.val[i] == f[if i < 32 - w then 32 - w else i])
            && r.found <= w && (forall i :: 32 - w <= i < 32 - w + r.found ==> !f[i])
            && (r.found < w ==> f[32 - w + r.found])
            && Found(off, r) == (off + r.found) % M32
  {
    hide Sooner, Later, Run, Mix, And, Or, Not, Zeros, Clz;
    var f := FieldOf(win, o, w);
    FlagsMean(op, f, du, w);
    FoundMeans(High32(Sooner(win, o)), w);
    EvalField(op, win, o, w, du);
    SignExtends(f, w);
  }

  lemma FlagsMean(op: Op, f: Long, du: Long, w: nat)
    requires 1 <= w <= 32
    ensures f == Zeros(32) <==> true !in f
    ensures var nf := NewField(Ins, f, du, Run(32, 32 - w, 32));
            nf[32 - w] == du[32 - w] && (nf == Zeros(32) <==> true !in du[32 - w..])
  {
    hide Run, And, Zeros;
    ZeroMeans(f);
    var nf := NewField(Ins, f, du, Run(32, 32 - w, 32));
    ZeroMeans(nf);
    var d := du[32 - w..];
    assert forall i :: 0 <= i < w ==> nf[32 - w + i] == d[i];
    assert true in d ==> true in nf by {
      if true in d {
        var i :| 0 <= i < w && d[i];
        assert nf[32 - w + i];
      }
    }
    assert true in nf ==> true in d by {
      if true in nf {
        var i :| 0 <= i < 32 && nf[i];
        assert d[i - (32 - w)];
      }
    }
  }

  lemma SignExtends(f: Long, w: nat)
    requires 1 <= w <= 32 && forall i :: 0 <= i < 32 - w ==> !f[i]
    ensures var v := Or(f, if f[32 - w] then Not(Run(32, 32 - w, 32)) else Zeros(32));
            forall i :: 0 <= i < 32 ==> v[i] == f[if i < 32 - w then 32 - w else i]
  {
    hide Run, Or, Not, Zeros;
  }

  lemma ZeroMeans(v: Long)
    ensures v == Zeros(32) <==> true !in v
  {
    hide Zeros;
    if true !in v {
      forall i | 0 <= i < 32 ensures v[i] == Zeros(32)[i] { assert v[i] in v; }
      assert v == Zeros(32);
    }
  }

  lemma FoundMeans(fl: Long, w: nat)
    requires 1 <= w <= 32
    ensures var al, f := And(fl, Run(32, 0, w)), Later(fl, 32 - w);
            var k := if al == Zeros(32) then w else Clz(al);
            && k <= w && (forall i :: 32 - w <= i < 32 - w + k ==> !f[i]) && (k < w ==> f[32 - w + k])
  {
    hide Run, And, Later;
    var al := And(fl, Run(32, 0, w));
    ZeroMeans(al);
    hide Clz, Zeros;
    assert Clz(al) == 32 ==> true !in al;
  }

  /** BFINS and then BFEXTU of the same field: the low bits of the register inserted come back, zero-extended. */
  lemma InsertThenExtract(x: Pages, m: Mem, fc: FC, ea: Addr, off: int, w: nat, du: Long, dv: Word, sb: Byte, dv1: Word, sb1: Byte)
    requires ValidOffset(off) && 1 <= w <= 32
    requires ReadRight(x, m, fc, FieldAddr(ea, off), FieldBytes(off, w), dv, sb)
    requires var n, a := FieldBytes(off, w), FieldAddr(ea, off);
             ReadRight(x, Stored(x, m, n, a, fc, Eval(Ins, Win(n, dv, sb), off % 8, w, du).nw), fc, a, n, dv1, sb1)
    ensures Eval(Extu, Win(FieldBytes(off, w), dv1, sb1), off % 8, w, Zeros(32)).val == And(du, Run(32, 32 - w, 32))
  {
    hide Sooner, Later, Run, Mix, Or, Not, Answers, Win, FieldAddr, Eval, MemBit, And, FieldOf, Stored;
    var n, a := FieldBytes(off, w), FieldAddr(ea, off);
    var m1 := Stored(x, m, n, a, fc, Eval(Ins, Win(n, dv, sb), off % 8, w, du).nw);
    FieldIsWritten(Ins, x, m, fc, ea, off, w, dv, sb, du);
    FieldIsRead(x, m1, fc, ea, off, w, dv1, sb1);
    var f: Long := Later(High32(Sooner(Win(n, dv1, sb1), off % 8)), 32 - w);
    EvalVal(Win(n, dv1, sb1), off % 8, w);
    SetReadsBack(x, m, m1, fc, ea, off, w, And(du, Run(32, 32 - w, 32)), f);
  }

  lemma EvalVal(win: Window, o: nat, w: nat)
    requires o < 32 && 1 <= w <= 32
    ensures Eval(Extu, win, o, w, Zeros(32)).val == Later(High32(Sooner(win, o)), 32 - w)
  {
  }

  lemma SetReadsBack(x: Pages, m: Mem, m1: Mem, fc: FC, ea: Addr, off: int, w: nat, nf: Long, f: Long)
    requires 1 <= w <= 32 && FieldSet(x, m, m1, fc, ea, off, w, nf) && IsField(x, m1, fc, ea, off, w, f)
    requires forall i :: 0 <= i < 32 - w ==> !nf[i]
    ensures f == nf
  {
    hide MemBit, InField;
    forall i | 0 <= i < 32 ensures f[i] == nf[i] {
      if i >= 32 - w { assert FieldBit(x, m1, fc, ea, off, i - (32 - w)) == nf[i]; }
    }
  }

  // ---------------------------------------------------------------- the register form

  /** The register twice over, so that a field past the end goes on at the beginning. */
  function RegWindow(reg: Long): Window { reg + reg }

  /** A field in a register: `o` is the offset mod 32. */
  lemma RegisterField(op: Op, reg: Long, off: int, w: nat, du: Long)
    requires 1 <= w <= 32
    ensures forall i :: 0 <= i < 32 ==> FieldOf(RegWindow(reg), off % 32, w)[i] == (i >= 32 - w && reg[(off + (i - (32 - w))) % 32])
  {
    hide Sooner, Later;
    var o := off % 32;
    EvalField(op, RegWindow(reg), o, w, du);
    var f := FieldOf(RegWindow(reg), o, w);
    forall i | 0 <= i < 32 ensures f[i] == (i >= 32 - w && reg[(off + (i - (32 - w))) % 32]) {
      if i >= 32 - w { WrapBit(off, i - (32 - w)); }
    }
  }

  lemma WrapBit(off: int, i: nat)
    requires i < 32
    ensures (off + i) % 32 == if off % 32 + i < 32 then off % 32 + i else off % 32 + i - 32
  {
  }

  /** Bit `b` of the register result: the two halves of the window's new field, laid over each other. */
  lemma ValBit(op: Op, win: Window, o: nat, w: nat, du: Long, b: nat)
    requires o < 32 && 1 <= w <= 32 && Modifies(op) && b < 32
    ensures var nf := NewField(op, FieldOf(win, o, w), du, Run(32, 32 - w, 32));
            var m64, n64 := Later(Run(32, 0, w) + Zeros(32), o), Later(Sooner(nf, 32 - w) + Zeros(32), o);
            Eval(op, win, o, w, du).val[b] ==
              ((win[b] && !(m64[b] || m64[b + 32])) || (n64[b] && m64[b]) || (n64[b + 32] && m64[b + 32]))
  {
    hide Sooner, Later, Run, Mix, And, Or, Not, NewField, Clz, Zeros;
  }

  /** A modifying operation on a register changes exactly the bits of the field, which wraps. */
  lemma RegisterFieldSet(op: Op, reg: Long, off: int, w: nat, du: Long, b: nat)
    requires 1 <= w <= 32 && Modifies(op) && b < 32
    ensures var nf := NewField(op, FieldOf(RegWindow(reg), off % 32, w), du, Run(32, 32 - w, 32));
            var d := (b - off) % 32;
            Eval(op, RegWindow(reg), off % 32, w, du).val[b] == if d < w then nf[32 - w + d] else reg[b]
  {
    hide Sooner, Later, Run, NewField, Zeros, Eval, FieldOf;
    var o, d := off % 32, (b - off) % 32;
    assert d == if b >= o then b - o else b - o + 32;
    var nf := NewField(op, FieldOf(RegWindow(reg), o, w), du, Run(32, 32 - w, 32));
    ValBit(op, RegWindow(reg), o, w, du, b);
    MaskBits(o, w, nf, b);
    MaskBits(o, w, nf, b + 32);
  }

  /** Register bit `b`, the field's bit (b - off) mod 32 if that is below the width, becomes what the operation makes of
    it; every other bit stays. */
  lemma RegisterBecomes(op: Op, reg: Long, off: int, w: nat, du: Long, b: nat)
    requires 1 <= w <= 32 && Modifies(op) && b < 32
    ensures var v, d := Eval(op, RegWindow(reg), off % 32, w, du).val, (b - off) % 32;
            if d < w then BitBecomes(op, reg[b], du[32 - w + d], v[b]) else v[b] == reg[b]
  {
    hide Eval, FieldOf, NewField, Run, BitBecomes;
    var d := (b - off) % 32;
    RegisterFieldSet(op, reg, off, w, du, b);
    if d < w {
      RegisterField(op, reg, off, w, du);
      NewBit(op, FieldOf(RegWindow(reg), off % 32, w), du, w, d);
      BackTo(off, b);
    }
  }

  lemma BackTo(off: int, b: nat)
    requires b < 32
    ensures (off + (b - off) % 32) % 32 == b
  {
  }

  lemma MaskBits(o: nat, w: nat, nf: Long, i: nat)
    requires o < 32 && 1 <= w <= 32 && i < 64
    ensures Later(Run(32, 0, w) + Zeros(32), o)[i] == (o <= i < o + w)
    ensures o <= i < o + w ==> Later(Sooner(nf, 32 - w) + Zeros(32), o)[i] == nf[32 - w + (i - o)]
  {
    hide Sooner, Later, Run;
  }
}
