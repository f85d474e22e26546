/** Multi-precision arithmetic: ADDX, SUBX, ABCD, SBCD and NBCD of the ALU, chained from the least significant
  operand up, against arithmetic on the whole numbers. */
module Extended {
  import opened Memory

  datatype Flags = Flags(x: bool, n: bool, z: bool, v: bool, c: bool)
  datatype Out = Out(r: nat, f: Flags)
  datatype Op = Addx | Subx | Abcd | Sbcd

  function Modulus(s: Size): (m: nat)
    ensures m == 0x100 || m == 0x1_0000 || m == M32
  {
    match s case B => 0x100 case W => 0x1_0000 case L => M32
  }

  function Int(b: bool): nat { if b then 1 else 0 }

  function Carry(m: nat, x: bool): nat { if x then m else 0 }

  // ---------------------------------------------------------------- the ALU

  /** ADDX: the 33-bit sum, its bit above the size the carry. */
  function AddxUnit(s: Size, a: nat, b: nat, f: Flags): Out {
    var m := Modulus(s);
    var full := (b % m + a % m + Int(f.x)) % (2 * M32);
    var c := full / m % 2 == 1;
    var aM, bM, rM := a % m >= m / 2, b % m >= m / 2, full % m >= m / 2;
    Out(full % m, Flags(c, rM, f.z && full % m == 0, aM == bM && rM != aM, c))
  }

  /** SUBX: the 33-bit difference, which wraps when it borrows. */
  function SubxUnit(s: Size, a: nat, b: nat, f: Flags): Out {
    var m := Modulus(s);
    var full := (b % m - a % m - Int(f.x)) % (2 * M32);
    var c := full / m % 2 == 1;
    var aM, bM, rM := a % m >= m / 2, b % m >= m / 2, full % m >= m / 2;
    Out(full % m, Flags(c, rM, f.z && full % m == 0, aM != bM && rM == aM, c))
  }

  /** ABCD: the binary sum, with six more where the low digit passes nine, and $60 more where the rest does. */
  function AbcdUnit(a: Byte, b: Byte, f: Flags): Out {
    var low := b % 16 + a % 16 + Int(f.x);
    var sum := (b + a + Int(f.x) + if low > 9 then 6 else 0) % 1024;
    var c := sum / 16 * 16 > 0x90;
    var r := (sum + if c then 0x60 else 0) % 1024 % 256;
    Out(r, Flags(c, f.n, f.z && r == 0, f.v, c))
  }

  /** SBCD, in ten bits: $60 off when the uncorrected byte borrows; the carry is the corrected byte's borrow. */
  function SbcdUnit(a: Byte, b: Byte, f: Flags): Out {
    var lowBorrow := b % 16 < a % 16 + Int(f.x);
    var raw := (b - a - Int(f.x)) % 1024;
    var cor := (raw - if lowBorrow then 6 else 0) % 1024;
    var r := (cor - if raw >= 512 then 0x60 else 0) % 1024 % 256;
    var c := cor >= 512;
    Out(r, Flags(c, f.n, f.z && r == 0, f.v, c))
  }

  /** NBCD of the destination `b`, which does not look at the source. */
  function NbcdUnit(b: Byte, f: Flags): Out {
    var lowBorrow := b % 16 != 0 || f.x;
    var raw := (0 - b - Int(f.x)) % 1024;
    var cor := (raw - if lowBorrow then 6 else 0) % 1024;
    var r := (cor - if raw >= 512 then 0x60 else 0) % 1024 % 256;
    var c := cor >= 512;
    Out(r, Flags(c, f.n, f.z && r == 0, f.v, c))
  }

  lemma NbcdIsSbcdFromZero(b: Byte, f: Flags)
    ensures NbcdUnit(b, f) == SbcdUnit(b, 0, f)
  {
  }

  predicate Decimal(op: Op) { op == Abcd || op == Sbcd }

  function Unit(op: Op, s: Size, a: nat, b: nat, f: Flags): Out
    requires Digit(op, s, a) && Digit(op, s, b)
  {
    match op
    case Addx => AddxUnit(s, a, b, f)
    case Subx => SubxUnit(s, a, b, f)
    case Abcd => AbcdUnit(a, b, f)
    case Sbcd => SbcdUnit(a, b, f)
  }

  // ---------------------------------------------------------------- operands as digits of a number

  /** One operand of a chain: any value of the size, or a packed byte of two decimal digits. */
  predicate Digit(op: Op, s: Size, d: nat) {
    if Decimal(op) then d < 256 && d / 16 <= 9 && d % 16 <= 9 else d < Modulus(s)
  }

  function Base(op: Op, s: Size): (b: nat)
    ensures b >= 2
  {
    if Decimal(op) then 100 else Modulus(s)
  }

  function Value(op: Op, d: nat): nat { if Decimal(op) then d / 16 * 10 + d % 16 else d }

  /** The number, least significant operand first. */
  function Number(op: Op, s: Size, ds: seq<nat>): nat {
    if ds == [] then 0 else Value(op, ds[0]) + Base(op, s) * Number(op, s, ds[1..])
  }

  function Power(b: nat, n: nat): nat { if n == 0 then 1 else b * Power(b, n - 1) }

  predicate Digits(op: Op, s: Size, ds: seq<nat>) { forall i :: 0 <= i < |ds| ==> Digit(op, s, ds[i]) }

  predicate Adds(op: Op) { op == Addx || op == Abcd }

  /** `b + (a + x)`, or `b - (a + x)`. */
  function Combine(op: Op, b: int, a: int, x: int): int { if Adds(op) then b + (a + x) else b - (a + x) }

  datatype Chained = Chained(rs: seq<nat>, f: Flags)

  /** The operation run over the operands in order, each taking the X and Z the one before left. */
  function Chain(op: Op, s: Size, xs: seq<nat>, ys: seq<nat>, f: Flags): Chained
    requires |xs| == |ys| && Digits(op, s, xs) && Digits(op, s, ys)
  {
    if xs == [] then Chained([], f)
    else
      var o := Unit(op, s, xs[0], ys[0], f);
      var rest := Chain(op, s, xs[1..], ys[1..], o.f);
      Chained([o.r] + rest.rs, rest.f)
  }

  // ---------------------------------------------------------------- one operand

  /** The result and the X left are the exact sum or difference, and Z only ever goes down. */
  ghost predicate Exact(op: Op, s: Size, a: nat, b: nat, f: Flags, o: Out) {
    && Digit(op, s, o.r)
    && Combine(op, Value(op, b), Value(op, a), Int(f.x)) == Combine(op, Value(op, o.r), 0, Carry(Base(op, s), o.f.x))
    && o.f.c == o.f.x && (o.f.z <==> f.z && Value(op, o.r) == 0)
  }

  lemma Digits16(h: int, l: int)
    requires 0 <= l < 16
    ensures (16 * h + l) / 16 == h && (16 * h + l) % 16 == l
  {
  }

  /** Ten-bit addition of the corrections, on digits already carried: `h` may be 10 to 19. */
  lemma AbcdDigits(h: nat, l: nat)
    requires h < 20 && l < 10
    ensures var sum := (16 * h + l) % 1024;
            var c := sum / 16 * 16 > 0x90;
            && c == (h > 9)
            && (sum + if c then 0x60 else 0) % 1024 % 256 == 16 * (if h > 9 then h - 10 else h) + l
  {
    Digits16(h, l);
  }

  lemma AbcdIs(a: Byte, b: Byte, f: Flags, h: nat, l: nat)
    requires h < 20 && l < 10
    requires b + a + Int(f.x) + (if b % 16 + a % 16 + Int(f.x) > 9 then 6 else 0) == 16 * h + l
    ensures var r := 16 * (if h > 9 then h - 10 else h) + l;
            AbcdUnit(a, b, f) == Out(r, Flags(h > 9, f.n, f.z && r == 0, f.v, h > 9))
  {
    AbcdDigits(h, l);
  }

  lemma DecimalExact(op: Op, s: Size, a: Byte, b: Byte, f: Flags, o: Out, h: nat, l: nat)
    requires Decimal(op) && h < 10 && l < 10 && o.r == 16 * h + l && o.f.c == o.f.x && o.f.z == (f.z && o.r == 0)
    requires Combine(op, b / 16 * 10 + b % 16, a / 16 * 10 + a % 16, Int(f.x)) == Combine(op, 10 * h + l, 0, Carry(100, o.f.x))
    ensures Exact(op, s, a, b, f, o)
  {
    Digits16(h, l);
  }

  lemma AbcdIsExact(s: Size, a: Byte, b: Byte, f: Flags)
    requires Digit(Abcd, s, a) && Digit(Abcd, s, b)
    ensures Exact(Abcd, s, a, b, f, AbcdUnit(a, b, f))
  {
    hide AbcdUnit;
    var (bh, bl, ah, al) := (b / 16, b % 16, a / 16, a % 16);
    var x := Int(f.x);
    var k := if bl + al + x > 9 then 1 else 0;
    var h, l := bh + ah + k, bl + al + x - 10 * k;
    AbcdIs(a, b, f, h, l);
    hide Exact;
    DecimalExact(Abcd, s, a, b, f, AbcdUnit(a, b, f), if h > 9 then h - 10 else h, l);
  }

  /** Ten-bit subtraction of the corrections, on digits already borrowed: `h` is negative on a borrow. */
  lemma SbcdDigits(h: int, l: nat, k: nat)
    requires -10 <= h < 10 && l < 10 && k <= 1
    ensures var raw := (16 * h + l + 6 * k) % 1024;
            var cor := (raw - 6 * k) % 1024;
            && (h < 0 ==> raw >= 512) && (h >= 0 ==> raw < 512)
            && (cor >= 512 <==> h < 0)
            && (cor - if raw >= 512 then 0x60 else 0) % 1024 % 256 == 16 * (if h < 0 then h + 10 else h) + l
  {
    if h < 0 { assert (16 * h + l + 6 * k) % 1024 == 16 * h + l + 6 * k + 1024; }
  }

  lemma SbcdIs(a: Byte, b: Byte, f: Flags, h: int, l: nat, k: nat)
    requires -10 <= h < 10 && l < 10 && k == if b % 16 < a % 16 + Int(f.x) then 1 else 0
    requires b - a - Int(f.x) == 16 * h + l + 6 * k
    ensures var r := 16 * (if h < 0 then h + 10 else h) + l;
            SbcdUnit(a, b, f) == Out(r, Flags(h < 0, f.n, f.z && r == 0, f.v, h < 0))
  {
    SbcdDigits(h, l, k);
  }

  lemma SbcdIsExact(s: Size, a: Byte, b: Byte, f: Flags)
    requires Digit(Sbcd, s, a) && Digit(Sbcd, s, b)
    ensures Exact(Sbcd, s, a, b, f, SbcdUnit(a, b, f))
  {
    hide SbcdUnit;
    var (bh, bl, ah, al) := (b / 16, b % 16, a / 16, a % 16);
    var x := Int(f.x);
    var k := if bl < al + x then 1 else 0;
    var h, l := bh - ah - k, bl - al - x + 10 * k;
    SbcdIs(a, b, f, h, l, k);
    hide Exact;
    DecimalExact(Sbcd, s, a, b, f, SbcdUnit(a, b, f), if h < 0 then h + 10 else h, l);
  }

  /** The bit above the size is the carry, and of a 33-bit difference the borrow. */
  lemma CarryBit(s: Size, full: int)
    requires 0 <= full < 2 * Modulus(s)
    ensures full % (2 * M32) == full
    ensures full / Modulus(s) % 2 == (if full >= Modulus(s) then 1 else 0)
    ensures full % Modulus(s) == if full >= Modulus(s) then full - Modulus(s) else full
  {
    match s
    case B => assert full / 0x100 == if full >= 0x100 then 1 else 0;
    case W => assert full / 0x1_0000 == if full >= 0x1_0000 then 1 else 0;
    case L => assert full / M32 == if full >= M32 then 1 else 0;
  }

  lemma BorrowBit(s: Size, diff: int)
    requires 0 - Modulus(s) <= diff < Modulus(s)
    ensures diff % (2 * M32) / Modulus(s) % 2 == (if diff < 0 then 1 else 0)
    ensures diff % (2 * M32) % Modulus(s) == if diff < 0 then diff + Modulus(s) else diff
  {
    var full := diff % (2 * M32);
    assert full == if diff < 0 then diff + 2 * M32 else diff;
    match s
    case B => assert full / 0x100 == if diff < 0 then 0x1FF_FFFF else 0;
    case W => assert full / 0x1_0000 == if diff < 0 then 0x1_FFFF else 0;
    case L => assert full / M32 == if diff < 0 then 1 else 0;
  }

  lemma SmallMod(s: Size, a: nat)
    requires a < Modulus(s)
    ensures a % Modulus(s) == a
  {
  }

  lemma AddxIsExact(s: Size, a: nat, b: nat, f: Flags)
    requires a < Modulus(s) && b < Modulus(s)
    ensures Exact(Addx, s, a, b, f, AddxUnit(s, a, b, f))
  {
    hide Modulus;
    SmallMod(s, a);
    SmallMod(s, b);
    CarryBit(s, b + a + Int(f.x));
  }

  lemma SubxIsExact(s: Size, a: nat, b: nat, f: Flags)
    requires a < Modulus(s) && b < Modulus(s)
    ensures Exact(Subx, s, a, b, f, SubxUnit(s, a, b, f))
  {
    hide Modulus;
    SmallMod(s, a);
    SmallMod(s, b);
    BorrowBit(s, b - a - Int(f.x));
  }

  lemma UnitIsExact(op: Op, s: Size, a: nat, b: nat, f: Flags)
    requires Digit(op, s, a) && Digit(op, s, b)
    ensures Exact(op, s, a, b, f, Unit(op, s, a, b, f))
  {
    hide Exact, Modulus, AddxUnit, SubxUnit, AbcdUnit, SbcdUnit;
    match op
    case Addx => AddxIsExact(s, a, b, f);
    case Subx => SubxIsExact(s, a, b, f);
    case Abcd => AbcdIsExact(s, a, b, f);
    case Sbcd => SbcdIsExact(s, a, b, f);
  }

  // ---------------------------------------------------------------- the whole chain

  lemma Spread(op: Op, b: nat, y: int, x: int, c: int)
    ensures b * Combine(op, y, x, c) == Combine(op, b * y, b * x, b * c)
  {
  }

  lemma Scale(b: nat, p: nat, x: bool)
    ensures b * Carry(p, x) == Carry(b * p, x) && b * Int(x) == Carry(b, x)
  {
  }

  /** For any number of operands: the results are the digits of the whole sum or difference, X its carry or borrow
    out, and Z says that it started set and the whole result is zero. */
  lemma {:induction false} ChainIsExact(op: Op, s: Size, xs: seq<nat>, ys: seq<nat>, f: Flags)
    requires |xs| == |ys| && Digits(op, s, xs) && Digits(op, s, ys)
    ensures var e := Chain(op, s, xs, ys, f);
            && |e.rs| == |xs| && Digits(op, s, e.rs)
            && Combine(op, Number(op, s, ys), Number(op, s, xs), Int(f.x))
                 == Combine(op, Number(op, s, e.rs), 0, Carry(Power(Base(op, s), |xs|), e.f.x))
            && (e.f.z <==> f.z && Number(op, s, e.rs) == 0)
  {
    hide Unit, Digit, Value, Base, Combine, Carry, Int, Chain, Number, Power;
    if xs == [] {
      NoChain(op, s, f);
    } else {
      var b, o, t := Base(op, s), Unit(op, s, xs[0], ys[0], f), Chain(op, s, xs[1..], ys[1..], Unit(op, s, xs[0], ys[0], f).f);
      UnitIsExact(op, s, xs[0], ys[0], f);
      ChainIsExact(op, s, xs[1..], ys[1..], o.f);
      ChainHead(op, s, xs, ys, f);
      ChainJoins(op, b, Value(op, ys[0]), Value(op, xs[0]), f.x, Value(op, o.r), o.f.x, Number(op, s, ys[1..]),
                 Number(op, s, xs[1..]), Number(op, s, t.rs), Power(b, |xs| - 1), t.f.x);
      NoDigits(b, Number(op, s, t.rs));
    }
  }

  lemma NoChain(op: Op, s: Size, f: Flags)
    ensures Chain(op, s, [], [], f) == Chained([], f) && Number(op, s, []) == 0 && Power(Base(op, s), 0) == 1
    ensures Int(f.x) == Carry(1, f.x)
  {
  }

  lemma ChainHead(op: Op, s: Size, xs: seq<nat>, ys: seq<nat>, f: Flags)
    requires |xs| == |ys| > 0 && Digits(op, s, xs) && Digits(op, s, ys)
    ensures var e, o := Chain(op, s, xs, ys, f), Unit(op, s, xs[0], ys[0], f);
            var t := Chain(op, s, xs[1..], ys[1..], o.f);
            && e.rs == [o.r] + t.rs && e.f == t.f
            && Number(op, s, e.rs) == Value(op, o.r) + Base(op, s) * Number(op, s, t.rs)
            && Number(op, s, xs) == Value(op, xs[0]) + Base(op, s) * Number(op, s, xs[1..])
            && Number(op, s, ys) == Value(op, ys[0]) + Base(op, s) * Number(op, s, ys[1..])
            && Power(Base(op, s), |xs|) == Base(op, s) * Power(Base(op, s), |xs| - 1)
  {
    hide Unit, Digit, Value, Base;
    var e, o := Chain(op, s, xs, ys, f), Unit(op, s, xs[0], ys[0], f);
    assert e.rs[1..] == Chain(op, s, xs[1..], ys[1..], o.f).rs;
  }

  lemma NoDigits(b: nat, n: nat)
    requires b > 0
    ensures b * n == 0 <==> n == 0
  {
  }

  lemma ChainJoins(op: Op, b: nat, y0: nat, x0: nat, x: bool, r0: nat, x1: bool, y: nat, z: nat, r: nat, p: nat, c: bool)
    requires Combine(op, y0, x0, Int(x)) == Combine(op, r0, 0, Carry(b, x1))
    requires Combine(op, y, z, Int(x1)) == Combine(op, r, 0, Carry(p, c))
    ensures Combine(op, y0 + b * y, x0 + b * z, Int(x)) == Combine(op, r0 + b * r, 0, Carry(b * p, c))
  {
    Spread(op, b, y, z, Int(x1));
    Spread(op, b, r, 0, Carry(p, c));
    Scale(b, p, x1);
    Scale(b, p, c);
    hide Int, Carry;
  }

  // ---------------------------------------------------------------- the sign of the whole number

  function SignedDigit(s: Size, d: nat): int { if d >= Modulus(s) / 2 then d - Modulus(s) else d }

  /** The whole number in two's complement: only its most significant operand is signed. */
  function SignedNumber(s: Size, ds: seq<nat>): int
    requires ds != []
  {
    if |ds| == 1 then SignedDigit(s, ds[0]) else ds[0] + Modulus(s) * SignedNumber(s, ds[1..])
  }

  /** Half the range of `n` operands. */
  function Half(s: Size, n: nat): nat
    requires n > 0
  {
    if n == 1 then Modulus(s) / 2 else Modulus(s) * Half(s, n - 1)
  }

  predicate InRange(half: nat, v: int) { 0 - half <= v < half }

  function Top(h: nat, d: nat): int { if d >= h then d - 2 * h else d }

  lemma SignedMath(op: Op, h: nat, a: nat, b: nat, x: bool, r: nat, c: bool, v: bool)
    requires a < 2 * h && b < 2 * h && r < 2 * h
    requires Combine(op, b, a, Int(x)) == Combine(op, r, 0, Carry(2 * h, c))
    requires v <==> ((a >= h) == (if Adds(op) then b >= h else b < h)) && (r >= h) == (if Adds(op) then a < h else a >= h)
    ensures var w := Combine(op, Top(h, b), Top(h, a), Int(x));
            (v <==> !InRange(h, w)) && (!v ==> Top(h, r) == w)
  {
  }

  /** One ADDX or SUBX as signed arithmetic: V says that the result does not fit, N is its sign. */
  lemma UnitIsSigned(op: Op, s: Size, a: nat, b: nat, f: Flags)
    requires !Decimal(op) && a < Modulus(s) && b < Modulus(s)
    ensures var o := Unit(op, s, a, b, f);
            var v := Combine(op, SignedDigit(s, b), SignedDigit(s, a), Int(f.x));
            && (o.f.v <==> !InRange(Modulus(s) / 2, v)) && (!o.f.v ==> SignedDigit(s, o.r) == v)
            && o.f.n == (o.r >= Modulus(s) / 2)
  {
    hide Modulus, Unit, Exact, InRange, Combine;
    UnitIsExact(op, s, a, b, f);
    var o, h := Unit(op, s, a, b, f), Modulus(s) / 2;
    ExactIs(op, s, a, b, f, o);
    UnitFlags(op, s, a, b, f);
    assert Modulus(s) == 2 * h;
    SignedMath(op, h, a, b, f.x, o.r, o.f.x, o.f.v);
  }

  ghost predicate ExactAt(op: Op, s: Size, a: nat, b: nat, f: Flags, o: Out) {
    o.r < Modulus(s) && Combine(op, b, a, Int(f.x)) == Combine(op, o.r, 0, Carry(Modulus(s), o.f.x))
  }

  lemma ExactIs(op: Op, s: Size, a: nat, b: nat, f: Flags, o: Out)
    requires !Decimal(op) && Exact(op, s, a, b, f, o)
    ensures ExactAt(op, s, a, b, f, o)
  {
  }

  lemma UnitFlags(op: Op, s: Size, a: nat, b: nat, f: Flags)
    requires !Decimal(op) && a < Modulus(s) && b < Modulus(s)
    ensures var o, h := Unit(op, s, a, b, f), Modulus(s) / 2;
            && o.f.n == (o.r >= h)
            && (o.f.v <==> ((a >= h) == (if Adds(op) then b >= h else b < h)) && (o.r >= h) == (if Adds(op) then a < h else a >= h))
  {
    hide Modulus;
    SmallMod(s, a);
    SmallMod(s, b);
  }

  lemma LowDigit(m: nat, half: nat, r: nat, w: int)
    requires r < m
    ensures InRange(m * half, r + m * w) <==> InRange(half, w)
  {
    if w < half { MulLe(m, w + 1, half); }
    if w >= half { MulLe(m, half, w); }
    if w < 0 - half { MulLe(m, w + 1, 0 - half); }
    if w >= 0 - half { MulLe(m, 0 - half, w); }
  }

  lemma MulLe(m: nat, v: int, w: int)
    requires v <= w
    ensures m * v <= m * w
  {
    var d: nat := w - v;
    assert m * d >= 0 && m * w == m * v + m * d;
  }

  /** For any number of operands: the last V says that the whole signed sum or difference does not fit, and where it
    fits the results are it; the last N is the whole result's sign. */
  lemma {:induction false} ChainIsSigned(op: Op, s: Size, xs: seq<nat>, ys: seq<nat>, f: Flags)
    requires |xs| == |ys| > 0 && Digits(op, s, xs) && Digits(op, s, ys) && !Decimal(op)
    ensures var e := Chain(op, s, xs, ys, f);
            var v := Combine(op, SignedNumber(s, ys), SignedNumber(s, xs), Int(f.x));
            && e.rs != [] && (e.f.v <==> !InRange(Half(s, |xs|), v)) && (!e.f.v ==> SignedNumber(s, e.rs) == v)
            && e.f.n == (SignedNumber(s, e.rs) < 0)
  {
    hide Unit, Modulus, Combine, InRange, Exact;
    var o := Unit(op, s, xs[0], ys[0], f);
    UnitIsExact(op, s, xs[0], ys[0], f);
    ExactIs(op, s, xs[0], ys[0], f, o);
    ChainHead(op, s, xs, ys, f);
    if |xs| == 1 {
      UnitIsSigned(op, s, xs[0], ys[0], f);
    } else {
      var t, m := Chain(op, s, xs[1..], ys[1..], o.f), Modulus(s);
      ChainIsSigned(op, s, xs[1..], ys[1..], o.f);
      var y, x := SignedNumber(s, ys[1..]), SignedNumber(s, xs[1..]);
      var w := Combine(op, y, x, Int(o.f.x));
      assert Chain(op, s, xs, ys, f).rs[1..] == t.rs;
      SignedJoins(op, m, ys[0], xs[0], f.x, o.r, o.f.x, y, x);
      LowDigit(m, Half(s, |xs| - 1), o.r, w);
      MulSign(m, o.r, SignedNumber(s, t.rs));
    }
  }

  lemma MulSign(m: nat, r: nat, w: int)
    requires r < m
    ensures r + m * w < 0 <==> w < 0
  {
    if w < 0 { MulLe(m, w, -1); } else { MulLe(m, 0, w); }
  }

  lemma SignedJoins(op: Op, m: nat, y0: nat, x0: nat, x: bool, r0: nat, x1: bool, y: int, z: int)
    requires Combine(op, y0, x0, Int(x)) == Combine(op, r0, 0, Carry(m, x1))
    ensures Combine(op, y0 + m * y, x0 + m * z, Int(x)) == r0 + m * Combine(op, y, z, Int(x1))
  {
    Spread(op, m, y, z, Int(x1));
    Scale(m, 1, x1);
    hide Int, Carry;
  }

  /** The decimal operations leave N and V as they found them. */
  lemma {:induction false} DecimalKeepsNV(op: Op, s: Size, xs: seq<nat>, ys: seq<nat>, f: Flags)
    requires |xs| == |ys| && Digits(op, s, xs) && Digits(op, s, ys) && Decimal(op)
    ensures var e := Chain(op, s, xs, ys, f); e.f.n == f.n && e.f.v == f.v
  {
    if xs != [] {
      var o := Unit(op, s, xs[0], ys[0], f);
      assert o.f.n == f.n && o.f.v == f.v;
      hide Unit;
      DecimalKeepsNV(op, s, xs[1..], ys[1..], o.f);
    }
  }
}
