/** The multiply/divide unit: a 64/32 restoring divider, four quotient bits a clock, and a 32x32 product.

  The design's registers are unsigned vectors; here they are naturals below the vector's size, and
  every place where the design cuts a sum or a shift off is a `%`. */
module Divider {
  import opened Memory

  const T31: nat := 0x8000_0000
  const T32: nat := 0x1_0000_0000
  const T63: nat := 0x8000_0000_0000_0000
  const T64: nat := 0x1_0000_0000_0000_0000
  const T97: nat := 0x2_0000_0000_0000_0000_0000_0000

  type U32 = x: nat | x < T32
  type U64 = x: nat | x < T64
  type U97 = x: nat | x < T97

  /** One unit request: `a` the multiplier or divisor, `hi:lo` the dividend, `lo` the multiplicand. */
  datatype Req = Req(div: bool, sgn: bool, a: U32, hi: U32, lo: U32)

  datatype MdIn = MdIn(start: bool, req: Req)

  /** The unit's registers. */
  datatype Regs = Regs(running: bool, div: bool, negQ: bool, negR: bool, count: nat, den: U32, mcand: U32,
                       acc: U97, done: bool, hi: U32, lo: U32, ovf: bool)

  // ---------------------------------------------------------------- one clock

  function Neg32(x: U32): U32 { (T32 - x) % T32 }

  function Abs32(sgn: bool, x: U32): U32 { if sgn && x >= T31 then Neg32(x) else x }

  function Abs64(sgn: bool, x: U64): U64 { if sgn && x >= T63 then (T64 - x) % T64 else x }

  /** One restoring step on {R[32:0], D/Q[63:0]}: shift left, subtract the divisor from R where it fits. */
  function DivStep(a: U97, d: U32): U97 {
    var sh := (2 * a) % T97;
    var r := sh / T64;
    if r >= d then (r - d) * T64 + sh % T64 + 1 else sh
  }

  function Div4(a: U97, d: U32): U97 { DivStep(DivStep(DivStep(DivStep(a, d), d), d), d) }

  /** Registers loaded by a start pulse. */
  function Started(r: Regs, q: Req): Regs {
    var r0 := r.(done := false, running := true, div := q.div, ovf := false, den := Abs32(q.sgn, q.a));
    if q.div then
      r0.(acc := Abs64(q.sgn, q.hi * T32 + q.lo), count := 16,
          negQ := q.sgn && ((q.hi >= T31) != (q.a >= T31)), negR := q.sgn && q.hi >= T31)
    else
      r0.(mcand := Abs32(q.sgn, q.lo), count := 0,
          negQ := q.sgn && ((q.a >= T31) != (q.lo >= T31)) && q.a != 0 && q.lo != 0, negR := false)
  }

  function Product(x: U32, y: U32): (p: U64)
    ensures p == x * y
  {
    ProductFits(x, y);
    x * y
  }

  lemma ProductFits(x: U32, y: U32)
    ensures 0 <= x * y <= (T32 - 1) * (T32 - 1)
  {
    MulGrows(x, y, T32 - 1);
    MulGrows(y, T32 - 1, T32 - 1);
  }

  lemma MulGrows(x: nat, y: nat, z: nat)
    requires x <= z
    ensures 0 <= x * y <= z * y && 0 <= y * x <= y * z
  {
    assert (z - x) * y >= 0;
  }

  /** The clock that finishes: sign fix-up and overflow.  `sgn` is the input pin of that clock. */
  function Finished(r: Regs, sgn: bool): Regs {
    var raw: U64 := if r.div then r.acc % T64 else Product(r.mcand, r.den);
    var rem: U32 := r.acc / T64 % T32;
    var low := raw % T32;
    var r0 := r.(running := false, done := true, lo := if r.negQ then Neg32(low) else low);
    if r.div then
      r0.(hi := if r.negR then Neg32(rem) else rem,
          ovf := raw / T32 != 0 || (sgn && if r.negQ then low > T31 else low >= T31))
    else
      r0.(hi := if r.negQ then (T32 - 1 - raw / T32 + if low == 0 then 1 else 0) % T32 else raw / T32,
          ovf := false)
  }

  function Next(r: Regs, i: MdIn): Regs {
    if i.start then Started(r, i.req)
    else if r.running then
      if r.count != 0 then
        r.(done := false, count := r.count - 1, acc := if r.div then Div4(r.acc, r.den) else r.acc)
      else Finished(r, i.req.sgn)
    else r.(done := false)
  }

  /** The unit as the clocked block writes it. */
  class MulDivUnit {
    var r: Regs

    constructor ()
      ensures r == Regs(false, false, false, false, 0, 0, 0, 0, false, 0, 0, false)
    {
      r := Regs(false, false, false, false, 0, 0, 0, 0, false, 0, 0, false);
    }

    /** Four cascaded restoring steps. */
    static method Round(acc: U97, den: U32) returns (x: U97)
      ensures x == Div4(acc, den)
    {
      x := acc;
      var k := 0;
      while k < 4
        invariant 0 <= k <= 4
        invariant k == 0 ==> x == acc
        invariant k == 1 ==> x == DivStep(acc, den)
        invariant k == 2 ==> x == DivStep(DivStep(acc, den), den)
        invariant k == 3 ==> x == DivStep(DivStep(DivStep(acc, den), den), den)
        invariant k == 4 ==> x == Div4(acc, den)
      {
        hide DivStep;
        x := DivStep(x, den);
        k := k + 1;
      }
    }

    method Step(i: MdIn)
      modifies this
      ensures r == Next(old(r), i)
    {
      hide DivStep;
      if i.start {
        r := Started(r, i.req);
      } else if r.running && r.count != 0 {
        var acc := r.acc;
        if r.div { acc := Round(r.acc, r.den); }
        r := r.(done := false, count := r.count - 1, acc := acc);
      } else if r.running {
        r := Finished(r, i.req.sgn);
      } else {
        r := r.(done := false);
      }
    }
  }

  // ---------------------------------------------------------------- what it should compute

  function Signed32(x: U32): int { if x >= T31 then x - T32 else x }

  function Signed64(x: U64): int { if x >= T63 then x - T64 else x }

  function Value32(sgn: bool, x: U32): int { if sgn then Signed32(x) else x }

  function Value64(sgn: bool, x: U64): int { if sgn then Signed64(x) else x }

  function Signed(neg: bool, x: int): int { if neg then 0 - x else x }

  /** The 32-bit encoding of any integer. */
  function Enc32(v: int): U32 { v % T32 }

  function Abs(v: int): nat { if v < 0 then -v else v }

  /** Does the quotient or product fit 32 bits, signed or not? */
  predicate Fits32(sgn: bool, v: int) { if sgn then 0 - T31 <= v < T31 else 0 <= v < T32 }

  /** `q` and `m` are the quotient truncated toward zero and its remainder, which has the dividend's sign. */
  ghost predicate Divides(n: int, d: int, q: int, m: int) {
    && n == q * d + m && Abs(m) < Abs(d)
    && (m != 0 ==> (m < 0 <==> n < 0))
  }

  function Dividend(q: Req): int { Value64(q.sgn, q.hi * T32 + q.lo) }

  function Divisor(q: Req): int { Value32(q.sgn, q.a) }

  function Quotient(n: int, d: int): int
    requires d != 0
  {
    if (n < 0) == (d < 0) then Abs(n) / Abs(d) else -(Abs(n) / Abs(d))
  }

  function Remainder(n: int, d: int): int
    requires d != 0
  {
    if n < 0 then -(Abs(n) % Abs(d)) else Abs(n) % Abs(d)
  }

  /** There is one such pair, whichever way it is found. */
  lemma DividesOnce(n: int, d: int, q: int, m: int, q': int, m': int)
    requires d != 0 && Divides(n, d, q, m) && Divides(n, d, q', m')
    ensures q == q' && m == m'
  {
    assert (q - q') * d == m' - m;
    assert (q' - q) * d == -((q - q') * d);
    if q > q' { NoSmallMultiple(q - q', d); }
    if q < q' { NoSmallMultiple(q' - q, d); }
  }

  lemma NoSmallMultiple(k: int, d: int)
    requires k >= 1 && d != 0
    ensures Abs(k * d) >= Abs(d)
  {
    assert k * d == d + (k - 1) * d;
    if d > 0 { assert (k - 1) * d >= 0; } else { assert (k - 1) * d <= 0; }
  }

  lemma QuotientDivides(n: int, d: int)
    requires d != 0
    ensures Divides(n, d, Quotient(n, d), Remainder(n, d))
  {
    var a: int, b: int := Abs(n), Abs(d);
    var q: int, m: int := a / b, a % b;
    assert a == q * b + m;
    assert q * b == (-q) * (-b);
    assert (-q) * b == -(q * b) && q * (-b) == -(q * b);
  }

  // ---------------------------------------------------------------- the restoring loop

  /** After `k` steps on dividend `n`: the partial remainder, the dividend bits not yet shifted in and the
    `k` quotient bits `q` account for the dividend shifted left `k` places. */
  ghost predicate Steps(acc: U97, d: U32, n: U64, k: nat, q: nat) {
    && acc / T64 < d && q < Pow2(k)
    && acc - q + d * q * T64 == Pow2(k) * n
  }

  /** One step on the split accumulator: the top half doubles and takes in the dividend's next bit. */
  lemma StepSplits(acc: U97, d: U32)
    requires acc / T64 < d
    ensures var top, low := 2 * (acc / T64) + acc % T64 / T63, 2 * acc % T64;
            && 2 * acc == top * T64 + low && top < 2 * d
            && DivStep(acc, d) == (if top >= d then (top - d) * T64 + low + 1 else top * T64 + low)
            && DivStep(acc, d) / T64 < d
  {
    var r, w := acc / T64, acc % T64;
    var bit, v := w / T63, w % T63;
    var top := 2 * r + bit;
    SplitIs(2 * acc, top, 2 * v);
    StepIs(acc, d, top, 2 * v);
    if top >= d { SplitIs((top - d) * T64 + 2 * v + 1, top - d, 2 * v + 1); } else { SplitIs(top * T64 + 2 * v, top, 2 * v); }
    hide DivStep;
  }

  lemma StepIs(acc: U97, d: U32, top: nat, low: nat)
    requires 2 * acc / T64 == top && 2 * acc % T64 == low && 2 * acc < T97
    ensures DivStep(acc, d) == if top >= d then (top - d) * T64 + low + 1 else top * T64 + low
  {
  }

  lemma SplitIs(x: nat, h: nat, l: nat)
    requires x == h * T64 + l && l < T64
    ensures x / T64 == h && x % T64 == l
  {
  }

  ghost predicate Reached(acc: U97, d: U32, n: U64, k: nat) {
    exists q: nat :: Steps(acc, d, n, k, q)
  }

  lemma StepKeeps(acc: U97, d: U32, n: U64, k: nat)
    requires Reached(acc, d, n, k)
    ensures Reached(DivStep(acc, d), d, n, k + 1)
  {
    hide Pow2, DivStep;
    var q: nat :| Steps(acc, d, n, k, q);
    StepSplits(acc, d);
    PowDoubles(k, n);
    Distributes(d, q);
    var top := 2 * (acc / T64) + acc % T64 / T63;
    assert Steps(DivStep(acc, d), d, n, k + 1, if top >= d then 2 * q + 1 else 2 * q);
  }

  lemma PowDoubles(k: nat, n: nat)
    ensures Pow2(k + 1) == 2 * Pow2(k) && Pow2(k + 1) * n == 2 * (Pow2(k) * n)
  {
    assert 2 * Pow2(k) * n == 2 * (Pow2(k) * n);
  }

  lemma Distributes(d: nat, q: nat)
    ensures d * (2 * q + 1) * T64 == 2 * (d * q * T64) + d * T64
    ensures d * (2 * q) * T64 == 2 * (d * q * T64)
  {
    assert d * (2 * q + 1) == 2 * (d * q) + d;
    assert d * (2 * q) == 2 * (d * q);
  }

  lemma RoundKeeps(acc: U97, d: U32, n: U64, k: nat)
    requires Reached(acc, d, n, k)
    ensures Reached(Div4(acc, d), d, n, k + 4)
  {
    hide Reached, DivStep;
    StepKeeps(acc, d, n, k);
    StepKeeps(DivStep(acc, d), d, n, k + 1);
    StepKeeps(DivStep(DivStep(acc, d), d), d, n, k + 2);
    StepKeeps(DivStep(DivStep(DivStep(acc, d), d), d), d, n, k + 3);
  }

  lemma {:induction false} PowAdds(a: nat, b: nat)
    ensures Pow2(a + b) == Pow2(a) * Pow2(b)
  {
    if b > 0 {
      PowAdds(a, b - 1);
      assert 2 * (Pow2(a) * Pow2(b - 1)) == Pow2(a) * (2 * Pow2(b - 1));
    }
  }

  lemma PowIs64()
    ensures Pow2(64) == T64
  {
    assert Pow2(4) == 16;
    hide Pow2;
    PowAdds(4, 4);
    PowAdds(8, 8);
    PowAdds(16, 16);
    PowAdds(32, 32);
  }

  /** After 64 steps the accumulator is {remainder, quotient}. */
  lemma StepsDivide(acc: U97, d: U32, n: U64)
    requires d != 0 && Reached(acc, d, n, 64)
    ensures acc % T64 == n / d && acc / T64 == n % d
  {
    var q: nat :| Steps(acc, d, n, 64, q);
    hide Pow2;
    PowIs64();
    var r, low := acc / T64, acc % T64;
    var v := d * q;
    SameLow(r, low, q, v, n);
    assert v == q * d;
    hide Steps, Quotient, Remainder;
    DividesOnce(n, d, q, r, n / d, n % d);
  }

  lemma SameLow(r: nat, low: nat, q: nat, v: nat, n: nat)
    requires r * T64 + low - q + v * T64 == T64 * n && low < T64 && q < T64
    ensures low == q && n == v + r
  {
    assert low - q == T64 * (n - v - r);
  }

  // ---------------------------------------------------------------- a whole operation

  /** The unit `k` clocks after the edge that took the request in, and still working on it. */
  ghost predicate Working(r: Regs, q: Req, k: nat) {
    && r.running && !r.done && r.div == q.div && r.den == Abs32(q.sgn, q.a)
    && (if q.div then
          && k <= 16 && r.count == 16 - k
          && r.negQ == (q.sgn && ((q.hi >= T31) != (q.a >= T31)))
          && r.negR == (q.sgn && q.hi >= T31)
          && (q.a != 0 ==> Reached(r.acc, r.den, Abs64(q.sgn, q.hi * T32 + q.lo), 4 * k))
        else
          && k == 0 && r.count == 0 && r.mcand == Abs32(q.sgn, q.lo)
          && r.negQ == (q.sgn && ((q.a >= T31) != (q.lo >= T31)) && q.a != 0 && q.lo != 0))
  }

  lemma StartWorks(r: Regs, q: Req)
    ensures Working(Started(r, q), q, 0)
  {
    if q.div && q.a != 0 {
      var n := Abs64(q.sgn, q.hi * T32 + q.lo);
      assert Steps(n, Abs32(q.sgn, q.a), n, 0, 0);
    }
  }

  lemma RoundWorks(r: Regs, q: Req, k: nat)
    requires Working(r, q, k) && q.div && k < 16
    ensures Working(Next(r, MdIn(false, q)), q, k + 1)
  {
    hide Reached, DivStep, Div4;
    if q.a != 0 { RoundKeeps(r.acc, r.den, Abs64(q.sgn, q.hi * T32 + q.lo), 4 * k); }
  }

  /** The results the design promises: the quotient truncated toward zero and the remainder with the
    dividend's sign, and overflow exactly when the quotient does not fit; or the whole 64-bit product. */
  ghost predicate Right(r: Regs, q: Req) {
    if q.div then
      q.a != 0 ==>
        var n, d := Dividend(q), Divisor(q);
        && r.lo == Enc32(Quotient(n, d)) && r.hi == Enc32(Remainder(n, d))
        && (r.ovf <==> !Fits32(q.sgn, Quotient(n, d)))
    else
      r.hi * T32 + r.lo == Value32(q.sgn, q.a) * Value32(q.sgn, q.lo) % T64 && !r.ovf
  }

  lemma DivideFinishes(r: Regs, q: Req)
    requires Working(r, q, 16) && q.div && q.a != 0
    ensures Right(Finished(r, q.sgn), q)
  {
    hide Reached, Quotient, Remainder, Finished, Fits32, Enc32;
    var n, d := Dividend(q), Divisor(q);
    StepsDivide(r.acc, r.den, Abs64(q.sgn, q.hi * T32 + q.lo));
    assert Abs64(q.sgn, q.hi * T32 + q.lo) == Abs(n) && r.den == Abs(d);
    assert r.negQ ==> q.sgn;
    SignsAgree(n, d, (n < 0) != (d < 0), n < 0);
    assert Quotient(n, d) == Signed(r.negQ, Abs(n) / Abs(d));
    FixUp(r, q.sgn, Abs(n) / Abs(d), Abs(n) % Abs(d));
  }

  lemma FixUp(r: Regs, sgn: bool, raw: U64, rem: U32)
    requires r.div && r.acc % T64 == raw && r.acc / T64 == rem && (r.negQ ==> sgn)
    ensures var e, v := Finished(r, sgn), Signed(r.negQ, raw);
            && e.lo == Enc32(v) && e.hi == Enc32(Signed(r.negR, rem))
            && (e.ovf <==> !Fits32(sgn, v))
  {
    SignFix(raw, r.negQ);
  }

  lemma SignsAgree(n: int, d: int, negQ: bool, negR: bool)
    requires d != 0 && negQ == ((n < 0) != (d < 0)) && negR == (n < 0)
    ensures Quotient(n, d) == Signed(negQ, Abs(n) / Abs(d))
    ensures Remainder(n, d) == Signed(negR, Abs(n) % Abs(d))
  {
  }

  lemma SignFix(raw: U64, neg: bool)
    ensures var low := raw % T32;
            && (if neg then Neg32(low) else low) == Enc32(Signed(neg, raw))
            && (!Fits32(true, Signed(neg, raw)) <==>
                  raw / T32 != 0 || if neg then low > T31 else low >= T31)
            && (!neg ==> (!Fits32(false, raw) <==> raw / T32 != 0))
  {
  }

  lemma MultiplyFinishes(r: Regs, q: Req)
    requires Working(r, q, 0) && !q.div
    ensures Right(Finished(r, q.sgn), q)
  {
    hide Product, Finished;
    var x, y := Value32(q.sgn, q.a), Value32(q.sgn, q.lo);
    assert r.den == Abs(x) && r.mcand == Abs(y);
    ProductSign(x, y);
    ProductFits(r.mcand, r.den);
    assert x * y == Signed(r.negQ, Product(r.mcand, r.den));
    ProductResult(r, q.sgn);
  }

  lemma ProductResult(r: Regs, sgn: bool)
    requires !r.div
    ensures var e := Finished(r, sgn);
            e.hi * T32 + e.lo == Signed(r.negQ, Product(r.mcand, r.den)) % T64 && !e.ovf
  {
    var p := Product(r.mcand, r.den);
    ProductFits(r.mcand, r.den);
    hide Product;
    NegateHalves(p);
    HalvesJoin(p);
    hide Neg32;
  }

  lemma HalvesJoin(p: U64)
    ensures p / T32 * T32 + p % T32 == p % T64
  {
  }

  /** The two halves are negated separately, the carry out of the low half being low == 0. */
  lemma NegateHalves(p: U64)
    requires p <= (T32 - 1) * (T32 - 1)
    ensures (T32 - 1 - p / T32 + if p % T32 == 0 then 1 else 0) % T32 * T32 + Neg32(p % T32) == Signed(true, p) % T64
  {
  }

  lemma ProductSign(x: int, y: int)
    ensures Abs(y) * Abs(x) == Abs(x * y)
    ensures x * y < 0 <==> ((x < 0) != (y < 0) && x != 0 && y != 0)
  {
    assert (-x) * y == -(x * y) && x * (-y) == -(x * y);
    if x > 0 && y > 0 { assert x * y > 0; }
    if x < 0 && y < 0 { assert (-x) * (-y) > 0; }
    if x > 0 && y < 0 { assert x * (-y) > 0; }
    if x < 0 && y > 0 { assert (-x) * y > 0; }
  }

  /** Clocks from a start pulse to the pulse of `done`. */
  function Latency(q: Req): nat { if q.div then 17 else 1 }

  /** The unit after `k` clocks with no start pulse, the sign pin held. */
  function Idle(r: Regs, q: Req, k: nat): Regs {
    if k == 0 then r else Next(Idle(r, q, k - 1), MdIn(false, q))
  }

  lemma {:induction false} StaysBusy(r: Regs, q: Req, k: nat)
    requires k < Latency(q)
    ensures Working(Idle(Started(r, q), q, k), q, k)
  {
    StartWorks(r, q);
    if k > 0 {
      StaysBusy(r, q, k - 1);
      RoundWorks(Idle(Started(r, q), q, k - 1), q, k - 1);
    }
  }

  /** Whatever the unit held before: from a start pulse `done` is low for 16 clocks of a division (none of a
    product), then high with the right results. */
  lemma {:induction false} UnitIsRight(r: Regs, q: Req)
    ensures forall k :: 0 <= k < Latency(q) ==> !Idle(Started(r, q), q, k).done
    ensures var e := Idle(Started(r, q), q, Latency(q)); e.done && !e.running && Right(e, q)
  {
    hide Right, Finished, Steps, DivStep, Started, Idle;
    forall k | 0 <= k < Latency(q) ensures !Idle(Started(r, q), q, k).done { StaysBusy(r, q, k); }
    LastClock(r, q);
  }

  lemma LastClock(r: Regs, q: Req)
    ensures var e := Idle(Started(r, q), q, Latency(q)); e.done && !e.running && Right(e, q)
  {
    hide Right, Started, Working;
    StaysBusy(r, q, Latency(q) - 1);
    LastClockFrom(Idle(Started(r, q), q, Latency(q) - 1), q);
  }

  lemma LastClockFrom(r: Regs, q: Req)
    requires Working(r, q, Latency(q) - 1)
    ensures var e := Next(r, MdIn(false, q)); e.done && !e.running && Right(e, q)
  {
    hide Right, Reached, DivStep;
    if !q.div { MultiplyFinishes(r, q); }
    else if q.a != 0 { DivideFinishes(r, q); }
    else { RightForZero(r, q); }
  }

  lemma RightForZero(r: Regs, q: Req)
    requires q.div && q.a == 0
    ensures Right(Finished(r, q.sgn), q)
  {
  }
}
