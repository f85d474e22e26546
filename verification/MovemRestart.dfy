/** What a MOVEM does to registers and memory, a save and restore, and its restart after access errors. */
module MovemRestart {
  import opened Memory
  import opened Movem
  import opened MovemProof

  datatype St = St(rf: RegFile, m: Mem)

  function Wrote(rf: RegFile, w: Option<(Reg, Word)>): RegFile {
    match w case None => rf case Some(p) => rf[p.0 := p.1]
  }

  /** A micro-op commits. */
  ghost function Exec(x: Pages, s: St, u: Uop): St {
    St(Wrote(Wrote(s.rf, u.w), u.u), if u.st.Some? then Apply(x, s.m, u.st.value) else s.m)
  }

  ghost function ExecAll(x: Pages, s: St, us: seq<Uop>): St {
    if us == [] then s else Exec(x, ExecAll(x, s, us[..|us| - 1]), us[|us| - 1])
  }

  /** The first `k` micro-ops of a job, on the state it was started in. */
  ghost function ExecTo(x: Pages, j: Job, k: nat): St {
    if k == 0 then St(j.rf, j.m) else Exec(x, ExecTo(x, j, k - 1), PlanAt(j.i, j.mt, x, j.rf, j.m, j.ea, k - 1))
  }

  ghost function Final(x: Pages, j: Job): St { ExecTo(x, j, PlanLength(j.i, j.mt)) }

  /** A run that ends has done the whole instruction. */
  lemma {:induction false} SentIsExec(x: Pages, j: Job, us: seq<Uop>)
    requires Sent(j, x, us)
    ensures ExecAll(x, St(j.rf, j.m), us) == ExecTo(x, j, |us|)
  {
    hide PlanAt, Exec;
    if us != [] { SentIsExec(x, j, us[..|us| - 1]); }
  }

  lemma RunDoesIt(x: Pages, j: Job, r: Seq, es: seq<In>, t: nat)
    requires ValidInstr(j.i) && t <= |es| && AllHonest(j, x, StartSeq(r, j.i, j.ea), es)
    requires !After(j, StartSeq(r, j.i, j.ea), es, t).0.active
    ensures ExecAll(x, St(j.rf, j.m), After(j, StartSeq(r, j.i, j.ea), es, t).1) == Final(x, j)
  {
    hide PlanAt, ExecAll, ExecTo, AllHonest, StartSeq, MovemProof.After, PlanLength;
    SendsThePlan(j, x, r, es, t);
    SentIsExec(x, j, MovemProof.After(j, StartSeq(r, j.i, j.ea), es, t).1);
  }

  // ---------------------------------------------------------------- loads

  /** Register `r` after `k` loads. */
  ghost function LoadedReg(x: Pages, j: Job, k: nat, r: Reg): Word {
    var l := Listed(j.i.list);
    if r in l && Place(l, r) < k && Some(r) != j.i.base then Value(j, x, Place(l, r)) else j.rf[r]
  }

  lemma {:induction false} LoadsTo(x: Pages, j: Job, k: nat)
    requires ValidInstr(j.i) && j.i.ld && k < PlanLength(j.i, j.mt)
    ensures ExecTo(x, j, k).m == j.m
    ensures forall r: Reg :: ExecTo(x, j, k).rf[r] == LoadedReg(x, j, k, r)
  {
    hide Listed, MemValue, AddrOf, BaseEnd, Place;
    if k > 0 {
      LoadsTo(x, j, k - 1);
      forall r: Reg ensures ExecTo(x, j, k).rf[r] == LoadedReg(x, j, k, r) { LoadAdds(x, j, k - 1, r); }
    }
  }

  /** One more load is one more register. */
  lemma LoadAdds(x: Pages, j: Job, k: nat, r: Reg)
    requires j.i.ld && ValidInstr(j.i) && k < |Listed(j.i.list)|
    ensures var b := Listed(j.i.list)[k];
            LoadedReg(x, j, k + 1, r) == if r == b && Some(b) != j.i.base then Value(j, x, k) else LoadedReg(x, j, k, r)
  {
    hide Listed, MemValue, AddrOf, Value, Place;
    var l := Listed(j.i.list);
    PlaceIs(j.i, k);
    assert l[k] in l;
    assert r in l && Place(l, r) == k ==> r == l[k];
  }

  /** A load's whole effect: listed registers from memory, the base register as `BaseEnd` says, nothing else. */
  lemma LoadResult(x: Pages, j: Job)
    requires ValidInstr(j.i) && j.i.ld
    ensures var s, l := Final(x, j), Listed(j.i.list);
            && s.m == j.m
            && forall r: Reg :: s.rf[r] ==
                 if Some(r) == j.i.base then (match BaseEnd(j.i, x, j.m, j.ea) case Some(v) => v case None => j.rf[r])
                 else if j.i.list[r] then Value(j, x, Place(l, r)) else j.rf[r]
  {
    hide MemValue, AddrOf, BaseEnd, Place, Exec;
    var n, l := PlanLength(j.i, j.mt), Listed(j.i.list);
    LoadsTo(x, j, n - 1);
    ListedMeans(j.i.list);
    hide Listed;
    LastLoad(x, j, ExecTo(x, j, n - 1));
  }

  lemma LastLoad(x: Pages, j: Job, s: St)
    requires ValidInstr(j.i) && j.i.ld && s.m == j.m
    requires forall r: Reg :: s.rf[r] == LoadedReg(x, j, PlanLength(j.i, j.mt) - 1, r)
    requires forall r: Reg :: r in Listed(j.i.list) <==> j.i.list[r]
    ensures var n, l := PlanLength(j.i, j.mt), Listed(j.i.list);
            var e := Exec(x, s, PlanAt(j.i, j.mt, x, j.rf, j.m, j.ea, n - 1));
            && e.m == j.m
            && forall r: Reg :: e.rf[r] ==
                 if Some(r) == j.i.base then (match BaseEnd(j.i, x, j.m, j.ea) case Some(v) => v case None => j.rf[r])
                 else if j.i.list[r] then Value(j, x, Place(l, r)) else j.rf[r]
  {
    hide Listed, MemValue, AddrOf, BaseEnd, Place, Value, PlanAt, LoadedReg;
    var l := Listed(j.i.list);
    PlanLast(x, j);
    forall r: Reg ensures Exec(x, s, PlanAt(j.i, j.mt, x, j.rf, j.m, j.ea, PlanLength(j.i, j.mt) - 1)).rf[r] ==
                 if Some(r) == j.i.base then (match BaseEnd(j.i, x, j.m, j.ea) case Some(v) => v case None => j.rf[r])
                 else if j.i.list[r] then Value(j, x, Place(l, r)) else j.rf[r]
    {
      LastLoadReg(x, j, r);
      if l != [] { LoadAdds(x, j, |l| - 1, r); }
    }
  }

  lemma LastLoadReg(x: Pages, j: Job, r: Reg)
    ensures var l := Listed(j.i.list);
            && LoadedReg(x, j, 0, r) == j.rf[r]
            && LoadedReg(x, j, |l|, r) == (if r in l && Some(r) != j.i.base then Value(j, x, Place(l, r)) else j.rf[r])
            && (Some(r) == j.i.base && l != [] ==> LoadedReg(x, j, |l| - 1, r) == j.rf[r])
  {
    hide Listed, MemValue, AddrOf, Value;
  }

  /** The instruction's last micro-op. */
  lemma PlanLast(x: Pages, j: Job)
    requires ValidInstr(j.i)
    ensures var l, n := Listed(j.i.list), PlanLength(j.i, j.mt);
            var u := PlanAt(j.i, j.mt, x, j.rf, j.m, j.ea, n - 1);
            && u.u == (if j.i.base.Some? && BaseEnd(j.i, x, j.m, j.ea).Some?
                       then Some((j.i.base.value, BaseEnd(j.i, x, j.m, j.ea).value)) else None)
            && (j.i.ld ==> u.st == None && u.w == if l == [] || Some(l[|l| - 1]) == j.i.base then None
                                                  else Some((l[|l| - 1], Value(j, x, |l| - 1))))
            && (!j.i.ld ==> u.w == None && u.st == if n == |l| then Some(StoreK(j, n - 1)) else None)
            && (l == [] ==> n == 1) && (l != [] ==> n == |l| || (n == |l| + 1 && !j.i.ld))
  {
    hide Listed, MemValue, AddrOf, BaseEnd, StoreAt, StoreValue;
  }

  // ---------------------------------------------------------------- stores

  ghost function StoreK(j: Job, k: nat): Store
    requires k < |Listed(j.i.list)|
  {
    StoreAt(j.i, AddrOf(j.i, j.ea, k), StoreValue(j.i, j.rf, RegOf(j.i, Listed(j.i.list)[k])))
  }

  ghost function Stores(j: Job, k: nat): (ss: seq<Store>)
    requires k <= |Listed(j.i.list)|
    ensures |ss| == k && forall q :: 0 <= q < k ==> ss[q] == StoreK(j, q)
  {
    if k == 0 then [] else Stores(j, k - 1) + [StoreK(j, k - 1)]
  }

  lemma {:induction false} StoresTo(x: Pages, j: Job, k: nat)
    requires ValidInstr(j.i) && !j.i.ld && k < PlanLength(j.i, j.mt)
    ensures k <= |Listed(j.i.list)| && ExecTo(x, j, k) == St(j.rf, ApplyAll(x, j.m, Stores(j, k)))
  {
    hide Listed, Apply, PlanAt, StoreK, ApplyAll, Stores;
    NoStores(x, j);
    if k > 0 {
      StoresTo(x, j, k - 1);
      StoreAdds(x, j, k - 1);
    }
  }

  lemma NoStores(x: Pages, j: Job)
    ensures ApplyAll(x, j.m, Stores(j, 0)) == j.m
  {
  }

  lemma StoreAdds(x: Pages, j: Job, k: nat)
    requires ValidInstr(j.i) && !j.i.ld && k + 1 < PlanLength(j.i, j.mt) && k < |Listed(j.i.list)|
    ensures PlanAt(j.i, j.mt, x, j.rf, j.m, j.ea, k) == Uop(None, Some(StoreK(j, k)), None, false)
    ensures ApplyAll(x, j.m, Stores(j, k + 1)) == Apply(x, ApplyAll(x, j.m, Stores(j, k)), StoreK(j, k))
  {
    hide Listed, AddrOf, BaseEnd, StoreValue, Apply, StoreAt;
    assert Stores(j, k + 1)[..k] == Stores(j, k);
  }

  /** A store's whole effect: the listed registers in memory, and the base of an -(An) list at the last of them. */
  lemma StoreResult(x: Pages, j: Job)
    requires ValidInstr(j.i) && !j.i.ld
    ensures var s, l := Final(x, j), Listed(j.i.list);
            && s.m == ApplyAll(x, j.m, Stores(j, |l|))
            && s.rf == if j.i.mode.Pre? && l != [] then j.rf[j.i.base.value := ToWord(AddrOf(j.i, j.ea, |l| - 1))] else j.rf
  {
    hide Stores, Exec, PlanAt, AddrOf, ToWord, ApplyAll, Listed, StoreK;
    var n := PlanLength(j.i, j.mt);
    StoresTo(x, j, n - 1);
    LastStore(x, j);
  }

  lemma LastStore(x: Pages, j: Job)
    requires ValidInstr(j.i) && !j.i.ld
    ensures var l, n := Listed(j.i.list), PlanLength(j.i, j.mt);
            && n - 1 <= |l|
            && Exec(x, St(j.rf, ApplyAll(x, j.m, Stores(j, n - 1))), PlanAt(j.i, j.mt, x, j.rf, j.m, j.ea, n - 1))
                 == St(if j.i.mode.Pre? && l != [] then j.rf[j.i.base.value := ToWord(AddrOf(j.i, j.ea, |l| - 1))] else j.rf,
                       ApplyAll(x, j.m, Stores(j, |l|)))
  {
    hide Listed, AddrOf, StoreK, Apply, ApplyAll, Stores, ToWord, MemValue, PlanAt, PlanLength;
    var n, l := PlanLength(j.i, j.mt), Listed(j.i.list);
    PlanLast(x, j);
    if n == |l| && n > 0 { LastApplied(x, j, n); }
  }

  lemma LastApplied(x: Pages, j: Job, n: nat)
    requires 0 < n <= |Listed(j.i.list)|
    ensures ApplyAll(x, j.m, Stores(j, n)) == Apply(x, ApplyAll(x, j.m, Stores(j, n - 1)), StoreK(j, n - 1))
  {
    hide Listed, StoreK, Apply;
    assert Stores(j, n)[..n - 1] == Stores(j, n - 1);
  }

  // ---------------------------------------------------------------- save and restore

  function Reversed(m: Mask): Mask { seq(16, k requires 0 <= k < 16 => m[15 - k]) }

  /** MOVEM.L list,-(An) and MOVEM.L (An)+,list. */
  function Save(list: Mask, an: Reg, fc: FC): Instr { Instr(false, false, Reversed(list), Pre, Some(an), fc) }

  function Restore(list: Mask, an: Reg, fc: FC): Instr { Instr(true, false, list, Post, Some(an), fc) }

  lemma {:induction false} AscendingUnique(a: seq<Reg>, b: seq<Reg>)
    requires forall j, k :: 0 <= j < k < |a| ==> a[j] < a[k]
    requires forall j, k :: 0 <= j < k < |b| ==> b[j] < b[k]
    requires forall r: Reg :: r in a <==> r in b
    ensures a == b
  {
    var r0 := if b == [] then 0 else b[0];
    assert b != [] ==> r0 in b;
    if a != [] {
      assert a[0] in b && (b != [] ==> b[0] in a);
      assert a[0] == b[0];
      forall r: Reg ensures r in a[1..] <==> r in b[1..] {
        assert r in a[1..] <==> r in a && r != a[0];
        assert r in b[1..] <==> r in b && r != b[0];
      }
      AscendingUnique(a[1..], b[1..]);
      assert a == [a[0]] + a[1..] && b == [b[0]] + b[1..];
    }
  }

  function Mirror(l: seq<Reg>): seq<Reg> { seq(|l|, k requires 0 <= k < |l| => 15 - l[|l| - 1 - k]) }

  /** The reversed mask lists the same registers from the other end. */
  lemma ListedReversed(m: Mask)
    ensures Listed(Reversed(m)) == Mirror(Listed(m))
  {
    ListedMeans(m);
    ListedMeans(Reversed(m));
    hide Listed;
    var l, a, b := Listed(m), Listed(Reversed(m)), Mirror(Listed(m));
    forall r: Reg ensures r in a <==> r in b {
      assert r in a <==> 15 - r in l;
      if 15 - r in l {
        var k :| 0 <= k < |l| && l[k] == 15 - r;
        assert b[|l| - 1 - k] == r;
      }
      if r in b {
        var k :| 0 <= k < |b| && b[k] == r;
        assert l[|l| - 1 - k] == 15 - r;
      }
    }
    AscendingUnique(a, b);
  }

  lemma WindowOffset(ea: Addr, d: nat, a: nat)
    ensures Plus(Minus(ea, d), a) % PAGE == (ea - d + a) % PAGE
  {
    ModAdd(ea - d, a);
    PageOfMod(ea - d + a);
  }

  lemma PageOfMod(v: int)
    ensures v % M32 % PAGE == v % PAGE
  {
  }

  lemma OffsetsDiffer(u: int, v: int)
    requires u != v && 0 - PAGE < u - v < PAGE
    ensures u % PAGE != v % PAGE
  {
  }

  /** Two longwords of a list no longer than 16 never share a byte, wherever their pages are. */
  lemma WindowApart(x: Pages, ea: Addr, p: nat, q: nat, s: Store, r: Read)
    requires p < 16 && q < 16 && p != q && s.size == L && r.size == L
    requires s.addr == Minus(ea, 4 * q) && r.addr == Minus(ea, 4 * p)
    ensures Apart(x, s, r)
  {
    hide Phys, Plus, Minus;
    forall a, b | 0 <= a < 4 && 0 <= b < 4 ensures StPhys(x, s, a) != RdPhys(x, r, b) {
      WindowOffset(ea, 4 * q, a);
      WindowOffset(ea, 4 * p, b);
      OffsetsDiffer(ea - 4 * q + a, ea - 4 * p + b);
    }
  }

  /** The last store to an operand is what it reads as. */
  lemma StoreReads(x: Pages, m: Mem, ss: seq<Store>, p: nat, r: Read)
    requires p < |ss| && ss[p].addr == r.addr && ss[p].size == r.size && ss[p].fc == r.fc
    requires forall q :: p < q < |ss| ==> Apart(x, ss[q], r)
    ensures Answers(x, ApplyAll(x, m, ss), r, ss[p].data)
  {
    var m1 := ApplyAll(x, m, ss[..p + 1]);
    assert ss == ss[..p + 1] + ss[p + 1..];
    ApplyAllJoins(x, m, ss[..p + 1], ss[p + 1..]);
    AllApartKeeps(x, m1, ss[p + 1..], r);
    assert ss[..p + 1][..p] == ss[..p];
    forall k | 0 <= k < Bytes(r.size)
      ensures Lane(ss[p].data, Bytes(r.size) - 1 - k) == ApplyAll(x, m, ss)[RdPhys(x, r, k)]
    {
      PutWrites(x, ApplyAll(x, m, ss[..p]), ss[p], Bytes(r.size), k);
      assert StPhys(x, ss[p], k) == RdPhys(x, r, k);
    }
  }

  /** Store `p` of a save, as what it is of which register. */
  lemma SaveStore(j: Job, list: Mask, an: Reg, fc: FC, p: nat)
    requires j.i == Save(list, an, fc) && p < |Listed(list)|
    ensures |Listed(j.i.list)| == |Listed(list)|
    ensures StoreK(j, p) == Store(Minus(j.ea, 4 * p), L, StoreValue(j.i, j.rf, Listed(list)[|Listed(list)| - 1 - p]), fc)
  {
    ListedReversed(list);
    hide Listed, StoreValue;
  }

  /** A longword of a save still reads as stored once all of it is. */
  lemma SaveReads(x: Pages, j: Job, list: Mask, an: Reg, fc: FC, p: nat)
    requires j.i == Save(list, an, fc) && p < |Listed(list)| <= 16 && |Listed(j.i.list)| == |Listed(list)|
    ensures var n := |Listed(list)|;
            Answers(x, ApplyAll(x, j.m, Stores(j, n)), Read(Minus(j.ea, 4 * p), L, fc), StoreValue(j.i, j.rf, Listed(list)[n - 1 - p]))
  {
    hide Listed, StoreValue, StoreK, Answers, Apart, Minus;
    var n, r := |Listed(list)|, Read(Minus(j.ea, 4 * p), L, fc);
    forall q | p < q < n ensures Apart(x, Stores(j, n)[q], r) {
      SaveStore(j, list, an, fc, q);
      WindowApart(x, j.ea, p, q, StoreK(j, q), r);
    }
    SaveStore(j, list, an, fc, p);
    StoreReads(x, j.m, Stores(j, n), p, r);
  }

  /** Transfer `k` of the restore is from where transfer n-1-k of the save went, and both are the same register. */
  lemma SavedAt(x: Pages, j: Job, list: Mask, an: Reg, fc: FC, k: nat)
    requires j.i == Save(list, an, fc) && k < |Listed(list)|
    ensures var n, i2 := |Listed(list)|, Restore(list, an, fc);
            && n <= 16 && |Listed(j.i.list)| == n
            && MemValue(i2, x, ApplyAll(x, j.m, Stores(j, n)), AddrOf(i2, AddrOf(j.i, j.ea, n - 1), k))
                 == StoreValue(j.i, j.rf, Listed(list)[k])
  {
    hide Listed, StoreValue, StoreK, Answers, MemValue, Stores, ApplyAll, AddrOf, Minus, Plus;
    ListedMeans(list);
    Short(Listed(list));
    var n, i2 := |Listed(list)|, Restore(list, an, fc);
    SaveStore(j, list, an, fc, k);
    SaveReads(x, j, list, an, fc, n - 1 - k);
    RestoreFrom(j.i, i2, j.ea, n, k);
    var m2 := ApplyAll(x, j.m, Stores(j, n));
    AnswerIs(Job(i2, false, 0, j.rf, m2), x, Minus(j.ea, 4 * (n - 1 - k)), StoreValue(j.i, j.rf, Listed(list)[k]));
  }

  lemma RestoreFrom(i1: Instr, i2: Instr, ea: Addr, n: nat, k: nat)
    requires k < n <= 16 && i1.mode.Pre? && i2.mode.Post? && !i1.word && !i2.word
    ensures AddrOf(i2, AddrOf(i1, ea, n - 1), k) == Minus(ea, 4 * (n - 1 - k))
  {
    RestoreAddr(ea, n, k);
  }

  lemma {:induction false} Short(l: seq<Reg>)
    requires forall j, k :: 0 <= j < k < |l| ==> l[j] < l[k]
    ensures |l| <= 16 && (l != [] ==> l[|l| - 1] >= |l| - 1)
  {
    if l != [] {
      Short(l[..|l| - 1]);
      if |l| > 1 { assert l[|l| - 2] < l[|l| - 1]; }
    }
  }

  lemma RestoreAddr(ea: Addr, n: nat, k: nat)
    requires k < n <= 16
    ensures Plus(Minus(ea, (n - 1) * 4), k * 4) == Minus(ea, (n - 1 - k) * 4)
    ensures Plus(Minus(ea, (n - 1) * 4), n * 4) == Plus(ea, 4)
  {
    hide Plus, Minus;
    MinusMinus(ea, (n - 1 - k) * 4, k * 4);
    MinusPlus(Minus(ea, (n - 1 - k) * 4), k * 4);
    PlusPlus(Minus(ea, (n - 1) * 4), (n - 1) * 4, 4);
    MinusPlus(ea, (n - 1) * 4);
  }

  /** For every list, every register contents, any page frames, and whatever happens to the other registers in
    between: the restore puts every listed register back, and An where it was. */
  lemma SaveRestore(x: Pages, list: Mask, an: Reg, fc: FC, mt: bool, s: St, rf: RegFile)
    requires var s1 := Final(x, Job(Save(list, an, fc), mt, Minus(Num(s.rf[an]), 4), s.rf, s.m)); rf[an] == s1.rf[an]
    ensures var s1 := Final(x, Job(Save(list, an, fc), mt, Minus(Num(s.rf[an]), 4), s.rf, s.m));
            var s2 := Final(x, Job(Restore(list, an, fc), mt, Num(rf[an]), rf, s1.m));
            && s2.m == s1.m
            && forall r: Reg :: s2.rf[r] == if list[r] || r == an then s.rf[r] else rf[r]
  {
    hide Listed, ExecTo, MemValue, StoreValue, AddrOf, Stores, Place;
    var i1, i2 := Save(list, an, fc), Restore(list, an, fc);
    var j1 := Job(i1, mt, Minus(Num(s.rf[an]), 4), s.rf, s.m);
    var s1, l := Final(x, j1), Listed(list);
    StoreResult(x, j1);
    ListedReversed(list);
    var j2 := Job(i2, mt, Num(rf[an]), rf, s1.m);
    LoadResult(x, j2);
    forall r: Reg ensures Final(x, j2).rf[r] == if list[r] || r == an then s.rf[r] else rf[r] {
      ListedIn(list, r);
      if list[r] && r != an {
        SavedAt(x, j1, list, an, fc, Place(l, r));
        StoresWhole(i1, s.rf, r);
      } else if r == an {
        BaseBack(j1, j2, list, an, fc, x);
      }
    }
  }

  lemma StoresWhole(i: Instr, rf: RegFile, r: Reg)
    requires Some(r) != i.base
    ensures StoreValue(i, rf, r) == rf[r]
  {
  }

  lemma BaseBack(j1: Job, j2: Job, list: Mask, an: Reg, fc: FC, x: Pages)
    requires j1.i == Save(list, an, fc) && j2.i == Restore(list, an, fc) && j1.ea == Minus(Num(j1.rf[an]), 4)
    requires j2.ea == Num(j2.rf[an])
    requires j2.rf[an] == if Listed(list) == [] then j1.rf[an] else ToWord(AddrOf(j1.i, j1.ea, |Listed(list)| - 1))
    ensures (match BaseEnd(j2.i, x, j2.m, j2.ea) case Some(v) => v case None => j2.rf[an]) == j1.rf[an]
  {
    hide ToWord, Num, MemValue, Minus, Plus, AddrOf;
    ListedMeans(list);
    Short(Listed(list));
    hide Listed;
    var n := |Listed(list)|;
    if n > 0 { RestoreEnds(j1.i, j2.i, j1.rf[an], n); }
  }

  lemma RestoreEnds(i1: Instr, i2: Instr, w: Word, n: nat)
    requires 0 < n <= 16 && i1.mode.Pre? && i2.mode.Post? && !i1.word && !i2.word
    ensures var last := AddrOf(i1, Minus(Num(w), 4), n - 1);
            Num(ToWord(last)) == last && ToWord(AddrOf(i2, last, n)) == w
  {
    RestoreAddr(Minus(Num(w), 4), n, 0);
    MinusPlus(Num(w), 4);
    NumIsOne(ToWord(Num(w)), w);
    hide ToWord, Num, Minus, Plus;
  }

  // ---------------------------------------------------------------- restart after an access error

  /** The effective address as EA-calc and EA-fetch form it.  `idx` is that of an indexed or memory-indirect mode,
    which may depend on any register and on memory. */
  ghost function EaOf(i: Instr, idx: (RegFile, Mem) -> Addr, s: St): Addr
    requires ValidInstr(i)
  {
    match i.mode
    case Ind => Num(s.rf[i.base.value])
    case Post => Num(s.rf[i.base.value])
    case Pre => Minus(Num(s.rf[i.base.value]), Step(i))
    case Disp(d) => Plus(Num(s.rf[i.base.value]), d)
    case Abs(a) => a
    case PcDisp(a) => a
    case Indexed => idx(s.rf, s.m)
  }

  /** The modes whose EA an RTE with CM set restores from the frame; the others calculate it again. */
  predicate UsesSavedEa(i: Instr) { i.mode.Indexed? || (i.ld && i.mode.PcDisp?) }

  /** An access error: at transfer `at`, with `bytes` bytes of a split store already in memory. */
  datatype Fault = Fault(at: nat, bytes: nat)

  predicate PossibleFault(i: Instr, f: Fault) { f.at < |Listed(i.list)| && f.bytes <= Bytes(SizeOf(i)) }

  /** What the instruction has committed when the access error abandons it.  A load's is found before its micro-op is
    sent; a store's is found in WB, where the micro-op's register writes stand. */
  ghost function Abandoned(x: Pages, j: Job, f: Fault): St
    requires PossibleFault(j.i, f)
  {
    var s, u := ExecTo(x, j, f.at), PlanAt(j.i, j.mt, x, j.rf, j.m, j.ea, f.at);
    if j.i.ld then s else St(Wrote(Wrote(s.rf, u.w), u.u), Put(x, s.m, StoreK(j, f.at), f.bytes))
  }

  /** The instruction run, and run again after each access error: the frame keeps the EA used, and the RTE gives it
    back to the modes that use it. */
  ghost function RunAgain(x: Pages, i: Instr, mt: bool, idx: (RegFile, Mem) -> Addr, s: St, saved: Option<Addr>,
                          fs: seq<Fault>): St
    requires ValidInstr(i) && forall f :: f in fs ==> PossibleFault(i, f)
    decreases fs
  {
    var ea := if saved.Some? && UsesSavedEa(i) then saved.value else EaOf(i, idx, s);
    var j := Job(i, mt, ea, s.rf, s.m);
    if fs == [] then Final(x, j) else RunAgain(x, i, mt, idx, Abandoned(x, j, fs[0]), Some(ea), fs[1..])
  }

  /** A read that is in error is of the transfer the sent micro-ops stop at: none of them wrote the base register. */
  lemma ReadFaultIsPossible(j: Job, x: Pages, r: Seq, out: seq<Uop>)
    requires Going(j, x, r, out) && r.active && r.pend && j.i.ld
    ensures Sent(j, x, out) && PossibleFault(j.i, Fault(|out|, 0)) && r.rda == AddrOf(j.i, j.ea, |out|)
    ensures ExecAll(x, St(j.rf, j.m), out) == Abandoned(x, j, Fault(|out|, 0))
  {
    hide ExecAll, ExecTo, MemValue, AddrOf, PlanAt;
    SentIsExec(x, j, out);
  }

  /** WB finds an access error in micro-op `at` with `bytes` of its store made: its register writes stand, and every
    younger micro-op, sent or not, is dropped. */
  ghost function FaultInWb(x: Pages, s: St, out: seq<Uop>, at: nat, bytes: nat): St
    requires at < |out| && out[at].st.Some? && bytes <= Bytes(out[at].st.value.size)
  {
    var s1 := ExecAll(x, s, out[..at]);
    St(Wrote(Wrote(s1.rf, out[at].w), out[at].u), Put(x, s1.m, out[at].st.value, bytes))
  }

  /** In every run, whatever its timing and however much of it has been sent. */
  lemma StoreFaultIsPossible(j: Job, x: Pages, r: Seq, es: seq<In>, t: nat, at: nat, bytes: nat)
    requires ValidInstr(j.i) && t <= |es| && AllHonest(j, x, StartSeq(r, j.i, j.ea), es)
    requires var out := After(j, StartSeq(r, j.i, j.ea), es, t).1; at < |out| && out[at].st.Some? && bytes <= Bytes(out[at].st.value.size)
    ensures !j.i.ld && PossibleFault(j.i, Fault(at, bytes))
    ensures FaultInWb(x, St(j.rf, j.m), After(j, StartSeq(r, j.i, j.ea), es, t).1, at, bytes)
         == Abandoned(x, j, Fault(at, bytes))
  {
    hide ExecAll, ExecTo, AllHonest, StartSeq, MovemProof.After, PlanLength, PlanAt, StoreK, Put, Listed;
    SendsThePlan(j, x, r, es, t);
    var out := MovemProof.After(j, StartSeq(r, j.i, j.ea), es, t).1;
    SentIsExec(x, j, out[..at]);
    PlanStores(x, j, at);
  }

  lemma PlanStores(x: Pages, j: Job, k: nat)
    requires PlanAt(j.i, j.mt, x, j.rf, j.m, j.ea, k).st.Some?
    ensures !j.i.ld && k < |Listed(j.i.list)| && PlanAt(j.i, j.mt, x, j.rf, j.m, j.ea, k).st == Some(StoreK(j, k))
    ensures StoreK(j, k).size == SizeOf(j.i)
  {
    hide Listed, MemValue, AddrOf, BaseEnd, StoreValue;
  }

  /** The register writes that stand: none, but An's where the last store of an -(An) list carries it. */
  lemma StandingWrites(x: Pages, j: Job, f: Fault)
    requires ValidInstr(j.i) && !j.i.ld && PossibleFault(j.i, f)
    ensures var l := Listed(j.i.list);
            Abandoned(x, j, f) == St(if Carries(j.i, j.mt, f) then j.rf[j.i.base.value := ToWord(AddrOf(j.i, j.ea, |l| - 1))]
                                     else j.rf,
                                     Put(x, ApplyAll(x, j.m, Stores(j, f.at)), StoreK(j, f.at), f.bytes))
  {
    hide Listed, ExecTo, MemValue, StoreValue, AddrOf, ApplyAll, StoreK, Put, StoreAt;
    StoresTo(x, j, f.at);
  }

  /** The faulted store is the last of an -(An) list whose An update has no micro-op of its own. */
  predicate Carries(i: Instr, mt: bool, f: Fault) { !mt && i.mode.Pre? && f.at + 1 == |Listed(i.list)| }

  /** `p` is a byte of one of the instruction's stores. */
  ghost predicate Hit(x: Pages, ss: seq<Store>, p: Addr) {
    exists q, k: nat :: 0 <= q < |ss| && k < Bytes(ss[q].size) && StPhys(x, ss[q], k) == p
  }

  /** Only the bytes the instruction stores can differ. */
  ghost predicate Touched(x: Pages, ss: seq<Store>, m0: Mem, m: Mem) {
    forall p: Addr :: m[p] == m0[p] || Hit(x, ss, p)
  }

  lemma {:induction false} ApplyTouches(x: Pages, ss: seq<Store>, k: nat, m: Mem)
    requires k <= |ss|
    ensures Touched(x, ss, m, ApplyAll(x, m, ss[..k]))
  {
    if k > 0 {
      ApplyTouches(x, ss, k - 1, m);
      assert ss[..k][..k - 1] == ss[..k - 1];
      PutTouches(x, ss, k - 1, ApplyAll(x, m, ss[..k - 1]), Bytes(ss[k - 1].size));
      hide Hit;
    }
  }

  lemma PutTouches(x: Pages, ss: seq<Store>, q: nat, m: Mem, b: nat)
    requires q < |ss| && b <= Bytes(ss[q].size)
    ensures Touched(x, ss, m, Put(x, m, ss[q], b))
  {
    forall p: Addr ensures Put(x, m, ss[q], b)[p] == m[p] || Hit(x, ss, p) {
      if !Hit(x, ss, p) { PutKeeps(x, m, ss[q], b, p); }
    }
  }

  /** Repeating all the stores makes good whatever part of them was done. */
  lemma {:induction false} ApplyAgain(x: Pages, ss: seq<Store>, m0: Mem, m: Mem, p: Addr)
    requires m[p] == m0[p] || Hit(x, ss, p)
    ensures ApplyAll(x, m, ss)[p] == ApplyAll(x, m0, ss)[p]
    decreases |ss|
  {
    if ss != [] {
      var t, s := ss[..|ss| - 1], ss[|ss| - 1];
      if k: nat :| k < Bytes(s.size) && StPhys(x, s, k) == p {
        PutWrites(x, ApplyAll(x, m, t), s, Bytes(s.size), k);
        PutWrites(x, ApplyAll(x, m0, t), s, Bytes(s.size), k);
      } else {
        PutKeeps(x, ApplyAll(x, m, t), s, Bytes(s.size), p);
        PutKeeps(x, ApplyAll(x, m0, t), s, Bytes(s.size), p);
        if m[p] != m0[p] {
          var q, k: nat :| 0 <= q < |ss| && k < Bytes(ss[q].size) && StPhys(x, ss[q], k) == p;
          assert t[q] == ss[q];
        }
        ApplyAgain(x, t, m0, m, p);
      }
    }
  }

  /** State `s` is between attempts at the job: what it differs in from the start, a whole run sets again, and
    nothing that the EA is calculated from differs unless it is the saved one that is used. */
  ghost predicate Between(x: Pages, j: Job, s: St) {
    if j.i.ld then
      && s.m == j.m
      && forall r: Reg :: s.rf[r] == j.rf[r] || (j.i.list[r] && Some(r) != j.i.base)
    else s.rf == j.rf && Touched(x, Stores(j, |Listed(j.i.list)|), j.m, s.m)
  }

  lemma SameFinal(x: Pages, j: Job, s: St)
    requires ValidInstr(j.i) && Between(x, j, s)
    ensures Final(x, j.(rf := s.rf, m := s.m)) == Final(x, j)
  {
    hide Listed, ExecTo, MemValue, StoreValue, AddrOf, Place, ApplyAll, BaseEnd, PlanLength;
    var j1 := j.(rf := s.rf, m := s.m);
    if j.i.ld {
      LoadResult(x, j);
      LoadResult(x, j1);
      assert Final(x, j1).rf == Final(x, j).rf;
    } else {
      StoreResult(x, j);
      StoreResult(x, j1);
      SameStores(j, j1, |Listed(j.i.list)|);
      StoresAgain(x, Stores(j, |Listed(j.i.list)|), j.m, s.m);
    }
  }

  lemma StoresAgain(x: Pages, ss: seq<Store>, m0: Mem, m: Mem)
    requires Touched(x, ss, m0, m)
    ensures ApplyAll(x, m, ss) == ApplyAll(x, m0, ss)
  {
    hide Hit, ApplyAll;
    forall p: Addr ensures ApplyAll(x, m, ss)[p] == ApplyAll(x, m0, ss)[p] { ApplyAgain(x, ss, m0, m, p); }
  }

  lemma {:induction false} SameStores(j: Job, j1: Job, k: nat)
    requires j1.i == j.i && j1.ea == j.ea && j1.rf == j.rf && k <= |Listed(j.i.list)|
    ensures Stores(j1, k) == Stores(j, k)
  {
    if k > 0 { SameStores(j, j1, k - 1); }
  }

  /** An attempt that is abandoned leaves the state between attempts. */
  lemma AbandonKeeps(x: Pages, j: Job, s: St, f: Fault)
    requires ValidInstr(j.i) && Between(x, j, s) && PossibleFault(j.i, f) && !Carries(j.i, j.mt, f)
    ensures Between(x, j, Abandoned(x, j.(rf := s.rf, m := s.m), f))
  {
    hide Listed, ExecTo, MemValue, StoreValue, AddrOf, Place, ApplyAll, PlanAt, Put, Hit;
    var j1, n := j.(rf := s.rf, m := s.m), |Listed(j.i.list)|;
    if j.i.ld {
      LoadsTo(x, j1, f.at);
      forall r: Reg ensures ExecTo(x, j1, f.at).rf[r] == j.rf[r] || (j.i.list[r] && Some(r) != j.i.base) {
        ListedIn(j.i.list, r);
      }
    } else {
      StandingWrites(x, j1, f);
      SameStores(j, j1, n);
      var ss := Stores(j, n);
      StoresPrefix(j1, f.at, n);
      ApplyTouches(x, ss, f.at, s.m);
      PutTouches(x, ss, f.at, ApplyAll(x, s.m, ss[..f.at]), f.bytes);
    }
  }

  lemma StoresPrefix(j: Job, k: nat, n: nat)
    requires k <= n <= |Listed(j.i.list)|
    ensures Stores(j, n)[..k] == Stores(j, k)
  {
    hide Listed, StoreK;
  }

  lemma SameEa(x: Pages, j: Job, idx: (RegFile, Mem) -> Addr, s: St)
    requires ValidInstr(j.i) && Between(x, j, s) && !UsesSavedEa(j.i)
    ensures EaOf(j.i, idx, s) == EaOf(j.i, idx, St(j.rf, j.m))
  {
    if j.i.base.Some? && j.i.ld { assert s.rf[j.i.base.value] == j.rf[j.i.base.value]; }
  }

  lemma {:induction false} RunsAlike(x: Pages, j: Job, idx: (RegFile, Mem) -> Addr, s: St, saved: Option<Addr>, fs: seq<Fault>)
    requires ValidInstr(j.i) && (forall f :: f in fs ==> PossibleFault(j.i, f) && !Carries(j.i, j.mt, f)) && Between(x, j, s)
    requires if saved.Some? then saved.value == j.ea && (!UsesSavedEa(j.i) ==> j.ea == EaOf(j.i, idx, St(j.rf, j.m)))
             else j.ea == EaOf(j.i, idx, s) && (!UsesSavedEa(j.i) ==> j.ea == EaOf(j.i, idx, St(j.rf, j.m)))
    ensures RunAgain(x, j.i, j.mt, idx, s, saved, fs) == Final(x, j)
    decreases fs
  {
    hide EaOf, Between, Abandoned, ExecTo, PlanLength, PossibleFault, UsesSavedEa, Carries;
    if !UsesSavedEa(j.i) { SameEa(x, j, idx, s); }
    var j1 := j.(rf := s.rf, m := s.m);
    if fs == [] {
      SameFinal(x, j, s);
    } else {
      AbandonKeeps(x, j, s, fs[0]);
      RunsAlike(x, j, idx, Abandoned(x, j1, fs[0]), Some(j.ea), fs[1..]);
    }
  }

  lemma StartsBetween(x: Pages, j: Job)
    ensures Between(x, j, St(j.rf, j.m))
  {
  }

  /** For every mode, list, register contents and page frames, and access errors at any transfers any number of
    times: the MOVEM ends with the registers and memory of an undisturbed run, as long as none is in a store that
    carries An's update.  With a micro-op of its own for that update, no store does. */
  lemma RestartIsInvisible(x: Pages, i: Instr, mt: bool, idx: (RegFile, Mem) -> Addr, s: St, fs: seq<Fault>)
    requires ValidInstr(i) && forall f :: f in fs ==> PossibleFault(i, f)
    requires mt || !i.mode.Pre? || forall f :: f in fs ==> f.at + 1 != |Listed(i.list)|
    ensures RunAgain(x, i, mt, idx, s, None, fs) == RunAgain(x, i, mt, idx, s, None, [])
  {
    hide Between, ExecTo, PossibleFault, EaOf, RunAgain, Listed;
    var j := Job(i, mt, EaOf(i, idx, s), s.rf, s.m);
    StartsBetween(x, j);
    RunsAlike(x, j, idx, s, None, fs);
    RunsAlike(x, j, idx, s, None, []);
  }

  // ---------------------------------------------------------------- restart without the trailing micro-op

  /** How many of the access errors are in the list's last store. */
  function InLast(i: Instr, fs: seq<Fault>): nat {
    if fs == [] then 0 else (if fs[0].at + 1 == |Listed(i.list)| then 1 else 0) + InLast(i, fs[1..])
  }

  /** The bytes a list takes. */
  function Span(i: Instr): nat { |Listed(i.list)| * Step(i) }

  /** An moved down by `k` lists of `a` bytes. */
  function Below(w: Word, a: nat, k: nat): Word { ToWord(Minus(Num(w), k * a)) }

  lemma BelowOne(i: Instr, w: Word, ea: Addr)
    requires i.mode.Pre? && Listed(i.list) != [] && ea == Minus(Num(w), Step(i))
    ensures ToWord(AddrOf(i, ea, |Listed(i.list)| - 1)) == Below(w, Span(i), 1)
  {
    hide Listed, Minus, ToWord, Num, Step;
    var n := |Listed(i.list)|;
    MinusMinus(Num(w), Step(i), (n - 1) * Step(i));
    assert Step(i) + (n - 1) * Step(i) == n * Step(i);
  }

  lemma BelowMore(w: Word, a: nat, k: nat)
    ensures Below(Below(w, a, 1), a, k) == Below(w, a, k + 1)
  {
    hide Minus, ToWord, Num;
    MinusMinus(Num(w), 1 * a, k * a);
    assert 1 * a + k * a == (k + 1) * a;
  }

  /** Every access error in the last store moves An down once more by the whole list. */
  lemma {:induction false} RestartMovesAn(x: Pages, i: Instr, idx: (RegFile, Mem) -> Addr, s: St, saved: Option<Addr>, fs: seq<Fault>)
    requires ValidInstr(i) && i.mode.Pre? && Listed(i.list) != [] && forall f :: f in fs ==> PossibleFault(i, f)
    ensures var an := i.base.value;
            RunAgain(x, i, false, idx, s, saved, fs).rf == s.rf[an := Below(s.rf[an], Span(i), 1 + InLast(i, fs))]
    decreases fs
  {
    hide Listed, ExecTo, PlanLength, AddrOf, Abandoned, Below, PossibleFault, ApplyAll, Stores, ToWord, Minus, Step, Span;
    var an := i.base.value;
    var j := Job(i, false, Minus(Num(s.rf[an]), Step(i)), s.rf, s.m);
    BelowOne(i, s.rf[an], j.ea);
    if fs == [] {
      StoreResult(x, j);
    } else {
      StandingWrites(x, j, fs[0]);
      RestartMovesAn(x, i, idx, Abandoned(x, j, fs[0]), Some(j.ea), fs[1..]);
      BelowMore(s.rf[an], Span(i), 1 + InLast(i, fs[1..]));
    }
  }

  lemma BelowSame(w: Word, a: nat, k: nat)
    ensures Below(w, a, 1 + k) == Below(w, a, 1) <==> k * a % M32 == 0
  {
    hide ToWord, Num, Minus;
    var v, d := Num(w), k * a;
    assert (1 + k) * a == a + d && 1 * a == a;
    assert Num(ToWord(Minus(v, a + d))) == Minus(v, a + d) && Num(ToWord(Minus(v, a))) == Minus(v, a);
    SameMod(v, a, d);
  }

  lemma SameMod(v: Addr, a: nat, d: nat)
    ensures Minus(v, a + d) == Minus(v, a) <==> d % M32 == 0
  {
  }

  /** Without the trailing micro-op: the registers come out right exactly when An's extra moves, one list for each
    access error in the last store, come to a multiple of 2^32 bytes. */
  lemma RestartShows(x: Pages, i: Instr, idx: (RegFile, Mem) -> Addr, s: St, fs: seq<Fault>)
    requires ValidInstr(i) && i.mode.Pre? && Listed(i.list) != [] && forall f :: f in fs ==> PossibleFault(i, f)
    ensures RunAgain(x, i, false, idx, s, None, fs).rf == RunAgain(x, i, false, idx, s, None, []).rf
       <==> InLast(i, fs) * Span(i) % M32 == 0
  {
    hide Listed, RunAgain, Below, PossibleFault, Span;
    var an := i.base.value;
    var w, a, k := s.rf[an], Span(i), InLast(i, fs);
    RestartMovesAn(x, i, idx, s, None, fs);
    RestartMovesAn(x, i, idx, s, None, []);
    BelowSame(w, a, k);
    assert s.rf[an := Below(w, a, 1 + k)][an] == Below(w, a, 1 + k) && s.rf[an := Below(w, a, 1)][an] == Below(w, a, 1);
  }

  lemma OneInLast(i: Instr, bytes: nat)
    requires Listed(i.list) != []
    ensures InLast(i, [Fault(|Listed(i.list)| - 1, bytes)]) == 1 && 0 < Span(i) < M32
  {
    SpanFits(i);
    hide Listed, Span;
    assert [Fault(|Listed(i.list)| - 1, bytes)][1..] == [];
  }

  lemma SpanFits(i: Instr)
    requires Listed(i.list) != []
    ensures 0 < Span(i) < M32
  {
    hide Listed;
    ListedMeans(i.list);
    Short(Listed(i.list));
  }

  /** So one access error in the last store is enough to leave An wrong, for every list. */
  lemma OneFaultShows(x: Pages, i: Instr, idx: (RegFile, Mem) -> Addr, s: St, bytes: nat)
    requires ValidInstr(i) && i.mode.Pre? && Listed(i.list) != [] && bytes <= Bytes(SizeOf(i))
    ensures var n := |Listed(i.list)|;
            && PossibleFault(i, Fault(n - 1, bytes))
            && RunAgain(x, i, false, idx, s, None, [Fault(n - 1, bytes)]) != RunAgain(x, i, false, idx, s, None, [])
  {
    hide Listed, RunAgain, InLast, Span;
    OneInLast(i, bytes);
    RestartShows(x, i, idx, s, [Fault(|Listed(i.list)| - 1, bytes)]);
  }
}
