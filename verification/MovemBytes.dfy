/** What a MOVEM does, byte by byte: which bytes of memory each listed register is loaded from or stored to, told by the
  mask alone, and where the base register ends. */
module MovemBytes {
  import opened Memory
  import opened Movem
  import opened MovemProof
  import opened MovemRestart

  // ---------------------------------------------------------------- places

  function Unit(i: Instr): nat { if i.word then 2 else 4 }

  /** The mask's bit for register `r`: bit 15 is D0's in an -(An) list. */
  function BitOf(i: Instr, r: Reg): Reg { if i.mode.Pre? then 15 - r else r }

  /** How far from the effective address the operand of `r` is: as many operands as mask bits below its own. */
  function Offset(i: Instr, r: Reg): int {
    var d := Count(i.list[..BitOf(i, r)]) * Unit(i);
    if i.mode.Pre? then 0 - d else d
  }

  /** Where byte `k` of the operand of `r` is. */
  ghost function ByteAt(x: Pages, i: Instr, ea: Addr, r: Reg, k: nat): Addr {
    Phys(x, i.fc, (ea + Offset(i, r) + k) % M32)
  }

  lemma {:induction false} CountZero(m: seq<bool>)
    ensures true !in m <==> Count(m) == 0
  {
    if m != [] { CountZero(m[1..]); }
  }

  lemma {:induction false} RankOf(m: Mask, r: Reg)
    ensures |Listed(m)| == Count(m)
    ensures m[r] ==> r in Listed(m) && Place(Listed(m), r) == Count(m[..r]) && Count(m[..r]) < Count(m)
    decreases Count(m)
  {
    CountZero(m);
    if true in m {
      var b, t := Lsb(m), Clear(m, Lsb(m));
      CountDrops(m, b);
      RankOf(t, r);
      assert Listed(m) == [b] + Listed(t) && Listed(m)[1..] == Listed(t);
      CountZero(m[..b]);
      if m[r] && r != b {
        assert m[..r][b := false] == t[..r];
        CountDrops(m[..r], b);
      }
    }
  }

  /** Transfer `Place` is the operand at `Offset`. */
  lemma OffsetIs(i: Instr, ea: Addr, r: Reg, k: nat)
    requires i.list[BitOf(i, r)]
    ensures Plus(AddrOf(i, ea, Place(Listed(i.list), BitOf(i, r))), k) == (ea + Offset(i, r) + k) % M32
  {
    RankOf(i.list, BitOf(i, r));
    hide Listed, Count, Place;
    var c := Count(i.list[..BitOf(i, r)]);
    ModAdd(ea + (if i.mode.Pre? then 0 - c * Unit(i) else c * Unit(i)), k);
  }

  // ---------------------------------------------------------------- loads

  /** Each listed register holds its operand's bytes, a word sign-extended; (An)+ ends past the operands and is not
    loaded; memory and all other registers are as they were. */
  ghost predicate HasLoaded(x: Pages, j: Job, s: St) {
    var i, n := j.i, Count(j.i.list);
    && s.m == j.m
    && forall r: Reg ::
         if i.mode.Post? && Some(r) == i.base && n > 0 then Num(s.rf[r]) == (j.ea + n * Unit(i)) % M32
         else if i.list[r] then OperandIn(x, j, r, s.rf[r])
         else s.rf[r] == j.rf[r]
  }

  ghost predicate OperandIn(x: Pages, j: Job, r: Reg, w: Word) {
    var at := (k: nat) => j.m[ByteAt(x, j.i, j.ea, r, k)];
    if j.i.word then w.b1 == at(0) && w.b0 == at(1) && w.b3 == w.b2 == if at(0) >= 128 then 255 else 0
    else w.b3 == at(0) && w.b2 == at(1) && w.b1 == at(2) && w.b0 == at(3)
  }

  lemma ValueIsOperand(x: Pages, j: Job, r: Reg)
    requires j.i.ld && ValidInstr(j.i) && j.i.list[r]
    ensures OperandIn(x, j, r, Value(j, x, Place(Listed(j.i.list), r)))
  {
    hide Listed, Place, AddrOf, Plus, Offset, Phys, MemValue, Count;
    OffsetIs(j.i, j.ea, r, 0);
    OffsetIs(j.i, j.ea, r, 1);
    OffsetIs(j.i, j.ea, r, 2);
    OffsetIs(j.i, j.ea, r, 3);
    MemValueBytes(j.i, x, j.m, AddrOf(j.i, j.ea, Place(Listed(j.i.list), r)));
  }

  lemma MemValueBytes(i: Instr, x: Pages, m: Mem, a: Addr)
    ensures var at := (k: nat) => m[Phys(x, i.fc, Plus(a, k))];
            var w := MemValue(i, x, m, a);
            if i.word then w.b1 == at(0) && w.b0 == at(1) && w.b3 == w.b2 == if at(0) >= 128 then 255 else 0
            else w.b3 == at(0) && w.b2 == at(1) && w.b1 == at(2) && w.b0 == at(3)
  {
    hide Phys, Plus;
  }

  lemma PastEnd(i: Instr, ea: Addr, n: nat)
    requires i.mode.Post?
    ensures Num(ToWord(AddrOf(i, ea, n))) == (ea + n * Unit(i)) % M32
  {
    hide ToWord, Num;
  }

  lemma LoadMeans(x: Pages, j: Job)
    requires ValidInstr(j.i) && j.i.ld
    ensures HasLoaded(x, j, Final(x, j))
  {
    hide Listed, Place, MemValue, OperandIn, Final, ToWord, Count, AddrOf, Num, Unit;
    LoadResult(x, j);
    if j.i.mode.Post? { PastEnd(j.i, j.ea, |Listed(j.i.list)|); }
    forall r: Reg
      ensures var i, s, n := j.i, Final(x, j), Count(j.i.list);
              if i.mode.Post? && Some(r) == i.base && n > 0 then Num(s.rf[r]) == (j.ea + n * Unit(i)) % M32
              else if i.list[r] then OperandIn(x, j, r, s.rf[r])
              else s.rf[r] == j.rf[r]
    {
      RankOf(j.i.list, r);
      if j.i.list[r] { ValueIsOperand(x, j, r); }
    }
  }

  // ---------------------------------------------------------------- stores

  /** What is stored of a register: itself, but of an -(An) list's own base, the value that the first operand's address
    leaves it. */
  function Kept(i: Instr, rf: RegFile, r: Reg): Word {
    if i.mode.Pre? && Some(r) == i.base then ToWord((Num(rf[r]) - Unit(i)) % M32) else rf[r]
  }

  function KeptByte(i: Instr, rf: RegFile, r: Reg, k: nat): Byte
    requires k < Unit(i)
  {
    var w := Kept(i, rf, r);
    if i.word then if k == 0 then w.b1 else w.b0
    else if k == 0 then w.b3 else if k == 1 then w.b2 else if k == 2 then w.b1 else w.b0
  }

  /** `p` is byte `k` of the operand of a listed register `r`. */
  ghost predicate IsOperand(x: Pages, j: Job, p: Addr, r: Reg, k: nat) {
    j.i.list[BitOf(j.i, r)] && k < Unit(j.i) && p == ByteAt(x, j.i, j.ea, r, k)
  }

  /** Each listed register's bytes are in memory, and no other byte has changed; -(An) ends at the last operand, and no
    other register has changed. */
  ghost predicate HasStored(x: Pages, j: Job, s: St) {
    var i, n := j.i, Count(j.i.list);
    && (forall r: Reg, k: nat :: i.list[BitOf(i, r)] && k < Unit(i) ==> s.m[ByteAt(x, i, j.ea, r, k)] == KeptByte(i, j.rf, r, k))
    && (forall p: Addr :: s.m[p] == j.m[p] || exists r: Reg, k: nat :: IsOperand(x, j, p, r, k))
    && forall r: Reg ::
         if i.mode.Pre? && Some(r) == i.base && n > 0 then Num(s.rf[r]) == (j.ea - (n - 1) * Unit(i)) % M32
         else s.rf[r] == j.rf[r]
  }

  /** Operands of one list are never one byte of memory, wherever their pages are: they lie within 64 bytes. */
  lemma TransfersApart(x: Pages, i: Instr, ea: Addr, p: nat, q: nat, v: Word)
    requires p < 16 && q < 16 && p != q
    ensures Apart(x, StoreAt(i, AddrOf(i, ea, q), v), Read(AddrOf(i, ea, p), SizeOf(i), i.fc))
  {
    hide Phys, Plus, Minus;
    var s, r := StoreAt(i, AddrOf(i, ea, q), v), Read(AddrOf(i, ea, p), SizeOf(i), i.fc);
    forall a, b | 0 <= a < Unit(i) && 0 <= b < Unit(i) ensures StPhys(x, s, a) != RdPhys(x, r, b) {
      OperandOffset(i, ea, q, a);
      OperandOffset(i, ea, p, b);
      OffsetsDiffer(ea + Dist(i, q) + a, ea + Dist(i, p) + b);
    }
  }

  function Dist(i: Instr, k: nat): int { if i.mode.Pre? then 0 - k * Unit(i) else k * Unit(i) }

  lemma OperandOffset(i: Instr, ea: Addr, k: nat, a: nat)
    ensures Plus(AddrOf(i, ea, k), a) % PAGE == (ea + Dist(i, k) + a) % PAGE
  {
    ModAdd(ea + Dist(i, k), a);
    PageOfMod(ea + Dist(i, k) + a);
  }

  /** The operand of transfer `p` reads as stored once all are. */
  lemma TransferReads(x: Pages, j: Job, p: nat)
    requires ValidInstr(j.i) && p < |Listed(j.i.list)| <= 16
    ensures Answers(x, ApplyAll(x, j.m, Stores(j, |Listed(j.i.list)|)), Read(AddrOf(j.i, j.ea, p), SizeOf(j.i), j.i.fc), StoreK(j, p).data)
  {
    hide Listed, StoreValue, Answers, Apart, AddrOf, StoreAt;
    var n, r := |Listed(j.i.list)|, Read(AddrOf(j.i, j.ea, p), SizeOf(j.i), j.i.fc);
    forall q | p < q < n ensures Apart(x, Stores(j, n)[q], r) {
      TransfersApart(x, j.i, j.ea, p, q, StoreValue(j.i, j.rf, RegOf(j.i, Listed(j.i.list)[q])));
    }
    StoreKIs(j, p);
    StoreReads(x, j.m, Stores(j, n), p, r);
  }

  lemma StoreKIs(j: Job, p: nat)
    requires p < |Listed(j.i.list)|
    ensures var s := StoreK(j, p); s.addr == AddrOf(j.i, j.ea, p) && s.size == SizeOf(j.i) && s.fc == j.i.fc
  {
    hide Listed, AddrOf, StoreValue;
  }

  lemma ListShort(m: Mask)
    ensures |Listed(m)| <= 16
  {
    ListedMeans(m);
    Short(Listed(m));
  }

  lemma StoredByte(x: Pages, j: Job, r: Reg, k: nat)
    requires ValidInstr(j.i) && j.i.list[BitOf(j.i, r)] && k < Unit(j.i)
    ensures ApplyAll(x, j.m, Stores(j, |Listed(j.i.list)|))[ByteAt(x, j.i, j.ea, r, k)] == KeptByte(j.i, j.rf, r, k)
  {
    hide Listed, Place, AddrOf, Plus, Offset, Phys, ApplyAll, Stores, Num, ToWord, Count;
    ListShort(j.i.list);
    RankOf(j.i.list, BitOf(j.i, r));
    var p := Place(Listed(j.i.list), BitOf(j.i, r));
    TransferReads(x, j, p);
    OffsetIs(j.i, j.ea, r, k);
    var rd := Read(AddrOf(j.i, j.ea, p), SizeOf(j.i), j.i.fc);
    assert RdPhys(x, rd, k) == ByteAt(x, j.i, j.ea, r, k);
  }

  lemma HitIsOperand(x: Pages, j: Job, p: Addr)
    requires ValidInstr(j.i) && Hit(x, Stores(j, |Listed(j.i.list)|), p)
    ensures exists r: Reg, k: nat :: IsOperand(x, j, p, r, k)
  {
    hide Listed, Place, AddrOf, Plus, Offset, Phys, Count, StoreK;
    var n := |Listed(j.i.list)|;
    var q, k: nat :| 0 <= q < n && k < Bytes(Stores(j, n)[q].size) && StPhys(x, Stores(j, n)[q], k) == p;
    ListedMeans(j.i.list);
    PlaceIs(j.i, q);
    StoreKIs(j, q);
    var r: Reg := BitOf(j.i, Listed(j.i.list)[q]);
    OffsetIs(j.i, j.ea, r, k);
    assert IsOperand(x, j, p, r, k);
  }

  lemma StoreMeans(x: Pages, j: Job)
    requires ValidInstr(j.i) && !j.i.ld
    ensures HasStored(x, j, Final(x, j))
  {
    hide Listed, Place, Final, ToWord, Count, Stores, ApplyAll, ByteAt, Hit, IsOperand, KeptByte, AddrOf;
    var l, s := Listed(j.i.list), Final(x, j);
    StoreResult(x, j);
    forall r: Reg, k: nat | j.i.list[BitOf(j.i, r)] && k < Unit(j.i)
      ensures s.m[ByteAt(x, j.i, j.ea, r, k)] == KeptByte(j.i, j.rf, r, k)
    {
      StoredByte(x, j, r, k);
    }
    ApplyTouches(x, Stores(j, |l|), |l|, j.m);
    assert Stores(j, |l|)[..|l|] == Stores(j, |l|);
    forall p: Addr ensures s.m[p] == j.m[p] || exists r: Reg, k: nat :: IsOperand(x, j, p, r, k) {
      if s.m[p] != j.m[p] { HitIsOperand(x, j, p); }
    }
    RankOf(j.i.list, 0);
    if j.i.mode.Pre? && l != [] { LastAddr(j.i, j.ea, |l|); }
  }

  lemma LastAddr(i: Instr, ea: Addr, n: nat)
    requires i.mode.Pre? && n > 0
    ensures Num(ToWord(AddrOf(i, ea, n - 1))) == (ea - (n - 1) * Unit(i)) % M32
  {
    hide ToWord, Num;
  }

  // ---------------------------------------------------------------- effective addresses

  /** The effective address of each mode as a number; an -(An) list's is one operand below An. */
  lemma EaMeans(i: Instr, idx: (RegFile, Mem) -> Addr, s: St)
    requires ValidInstr(i)
    ensures var an := if i.base.Some? then Num(s.rf[i.base.value]) else 0;
            EaOf(i, idx, s) == match i.mode
              case Ind => an
              case Post => an
              case Pre => (an - Unit(i)) % M32
              case Disp(d) => (an + d) % M32
              case Abs(a) => a
              case PcDisp(a) => a
              case Indexed => idx(s.rf, s.m)
  {
    hide Num;
  }

  // ---------------------------------------------------------------- whole runs

  /** Whatever the stalls, the answers' times and the hazards: the micro-ops of a run that has finished leave what a MOVEM
    should, byte by byte. */
  lemma RunMeans(x: Pages, j: Job, r: Seq, es: seq<In>, t: nat)
    requires ValidInstr(j.i) && t <= |es| && AllHonest(j, x, StartSeq(r, j.i, j.ea), es)
    requires !After(j, StartSeq(r, j.i, j.ea), es, t).0.active
    ensures var s := ExecAll(x, St(j.rf, j.m), After(j, StartSeq(r, j.i, j.ea), es, t).1);
            if j.i.ld then HasLoaded(x, j, s) else HasStored(x, j, s)
  {
    hide ExecAll, Final, AllHonest, StartSeq, MovemProof.After, HasLoaded, HasStored;
    RunDoesIt(x, j, r, es, t);
    if j.i.ld { LoadMeans(x, j); } else { StoreMeans(x, j); }
  }

  /** One micro-op of a run is marked as the instruction's last, and it is the one after which the sequencer rests; only
    that one writes the base register. */
  lemma LastIsLast(x: Pages, j: Job, r: Seq, es: seq<In>, t: nat)
    requires ValidInstr(j.i) && t <= |es| && AllHonest(j, x, StartSeq(r, j.i, j.ea), es)
    ensures var (q, out) := After(j, StartSeq(r, j.i, j.ea), es, t);
            && (!q.active ==> out != [])
            && forall k :: 0 <= k < |out| ==>
                 && (out[k].last <==> k + 1 == |out| && !q.active)
                 && (out[k].u.Some? ==> out[k].last && Some(out[k].u.value.0) == j.i.base)
  {
    hide AllHonest, StartSeq, MovemProof.After, PlanLength, PlanAt;
    SendsThePlan(j, x, r, es, t);
    var (q, out) := MovemProof.After(j, StartSeq(r, j.i, j.ea), es, t);
    forall k | 0 <= k < |out|
      ensures (out[k].last <==> k + 1 == PlanLength(j.i, j.mt)) && (out[k].u.Some? ==> out[k].last && Some(out[k].u.value.0) == j.i.base)
    {
      PlanMarks(x, j, k);
    }
    LengthSome(j.i, j.mt);
  }

  lemma PlanMarks(x: Pages, j: Job, k: nat)
    ensures var u := PlanAt(j.i, j.mt, x, j.rf, j.m, j.ea, k);
            (u.last <==> k + 1 == PlanLength(j.i, j.mt)) && (u.u.Some? ==> u.last && Some(u.u.value.0) == j.i.base)
  {
    hide Listed, MemValue, AddrOf, BaseEnd, StoreValue, StoreAt, PlanLength;
  }

  lemma LengthSome(i: Instr, mt: bool)
    ensures PlanLength(i, mt) > 0
  {
    hide Listed;
  }
}
