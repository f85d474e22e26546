/** The ALU's single-clock shifter, and EX's rule for a count of zero, against shifting one place at a time. */
module Shifter {
  import opened Memory
  import opened Vectors

  /** A bit vector, bit 0 first. */
  type Vec = seq<bool>

  // ---------------------------------------------------------------- vector operators

  /** `(1 << n) - 1` in `w` bits. */
  function Ones(w: nat, n: nat): (r: Vec)
    ensures |r| == w && forall i :: 0 <= i < w ==> r[i] == (i < n)
  {
    seq(w, i => i < n)
  }

  /** `x` in bit `k` of `w`. */
  function At(w: nat, k: nat, x: bool): (r: Vec)
    ensures |r| == w && forall i :: 0 <= i < w ==> r[i] == (i == k && x)
  {
    seq(w, i => i == k && x)
  }

  function Pick(x: bool, v: Vec): (r: Vec)
    ensures |r| == |v| && forall i :: 0 <= i < |r| ==> r[i] == (x && v[i])
  {
    if x then v else Ones(|v|, 0)
  }

  /** The index `k` places above or below `i` in a ring of `m`. */
  function Above(i: nat, k: nat, m: nat): nat
    requires i < m && k < m
  {
    if i + k < m then i + k else i + k - m
  }

  function Below(i: nat, k: nat, m: nat): nat
    requires i < m && k < m
  {
    if i >= k then i - k else i + m - k
  }

  /** Nothing above bit `m` - 1. */
  ghost predicate Within(v: Vec, m: nat) { forall i :: m <= i < |v| ==> !v[i] }

  /** The low `m` bits shifted left, cut to size. */
  function ShiftLeft(v: Vec, k: nat, m: nat): (r: Vec)
    requires m <= |v|
    ensures |r| == |v| && forall i :: 0 <= i < |v| ==> r[i] == (k <= i < m && v[i - k])
  {
    hide Later, And, Ones;
    And(Later(v, k), Ones(|v|, m))
  }

  /** One place left or right in the low `m` bits, `x` coming in. */
  function InLeft(v: Vec, m: nat, x: bool): (r: Vec)
    requires 0 < m <= |v|
    ensures |r| == |v| && forall i :: 0 <= i < |v| ==> r[i] == if i == 0 then x else i < m && v[i - 1]
  {
    hide ShiftLeft, Or, At;
    Or(ShiftLeft(v, 1, m), At(|v|, 0, x))
  }

  function InRight(v: Vec, m: nat, x: bool): (r: Vec)
    requires 0 < m <= |v|
    ensures |r| == |v|
    ensures Within(v, m) ==> forall i :: 0 <= i < |v| ==> r[i] == if i == m - 1 then x else i < m && v[i + 1]
  {
    hide Sooner, Or, At;
    Or(Sooner(v, 1), At(|v|, m - 1, x))
  }

  /** The low `m` bits rotated: two shifts, joined and cut to size. */
  function RotateLeft(v: Vec, k: nat, m: nat): (r: Vec)
    requires k < m <= |v|
    ensures |r| == |v|
    ensures Within(v, m) ==> forall i :: 0 <= i < |v| ==> r[i] == (i < m && v[Below(i, k, m)])
  {
    hide Later, Sooner, And, Or, Ones;
    And(Or(Later(v, k), Sooner(v, m - k)), Ones(|v|, m))
  }

  function RotateRight(v: Vec, k: nat, m: nat): (r: Vec)
    requires k < m <= |v|
    ensures |r| == |v|
    ensures Within(v, m) ==> forall i :: 0 <= i < |v| ==> r[i] == (i < m && v[Above(i, k, m)])
  {
    hide Later, Sooner, And, Or, Ones;
    And(Or(Sooner(v, k), Later(v, m - k)), Ones(|v|, m))
  }

  /** The low `m` bits shifted right by `k`, the sign `s` coming in. */
  function SignFill(v: Vec, k: nat, m: nat, s: bool): (r: Vec)
    requires k <= m <= |v|
    ensures |r| == |v|
    ensures Within(v, m) ==> forall i :: 0 <= i < |v| ==> r[i] == (i < m && if i + k < m then v[i + k] else s)
  {
    hide Later, Sooner, And, Or, Ones, Not, Pick;
    Or(Sooner(v, k), Pick(s, And(Not(Sooner(Ones(|v|, m), k)), Ones(|v|, m))))
  }

  // ---------------------------------------------------------------- the shifter

  datatype Flags = Flags(x: bool, n: bool, z: bool, v: bool, c: bool)
  datatype Op = Asl | Lsl | Asr | Lsr | Rol | Ror | Roxl | Roxr

  /** A result: the value in its low bits, zeros above, and the flags. */
  datatype Out = Out(r: Long, f: Flags)

  type Long = v: Vec | |v| == 32 witness seq(32, _ => false)

  function Bits(z: Size): (n: nat)
    ensures n == 8 || n == 16 || n == 32
  {
    match z case B => 8 case W => 16 case L => 32
  }

  function Mask(z: Size): Long { Ones(32, Bits(z)) }

  function Zero(z: Size, r: Long): bool { And(r, Mask(z)) == Ones(32, 0) }

  /** N and Z of a sized value, with the other flags. */
  function Finish(z: Size, r: Long, x: bool, v: bool, c: bool): Out {
    Out(r, Flags(x, r[Bits(z) - 1], Zero(z, r), v, c))
  }

  /** The closed form, for a count of 1 to 63. */
  function Barrel(op: Op, z: Size, b: Long, x: bool, n: nat): Out
    requires n > 0
  {
    var nb, mask := Bits(z), Mask(z);
    var bm := And(b, mask);
    match op
    case Asl =>
      var r := ShiftLeft(bm, n, nb);
      var c := n <= nb && Sooner(bm, nb - n)[0];
      Finish(z, r, c, AslOver(z, bm, n), c)
    case Lsl =>
      var r := ShiftLeft(bm, n, nb);
      var c := n <= nb && Sooner(bm, nb - n)[0];
      Finish(z, r, c, false, c)
    case Lsr =>
      var c := n <= nb && Sooner(bm, n - 1)[0];
      Finish(z, Sooner(bm, n), c, false, c)
    case Asr =>
      var ne := if n > nb then nb else n;
      var r := SignFill(bm, ne, nb, b[nb - 1]);
      var c := if n >= nb then b[nb - 1] else Sooner(bm, n - 1)[0];
      Finish(z, r, c, false, c)
    case Rol =>
      var r := RotateLeft(bm, n % nb, nb);
      Finish(z, r, x, false, r[0])
    case Ror =>
      var r := RotateRight(bm, n % nb, nb);
      Finish(z, r, x, false, Sooner(r, nb - 1)[0])
    case Roxl =>
      var rot := RotateLeft(WithX(z, bm, x), n % (nb + 1), nb + 1);
      Finish(z, And(rot[..32], mask), Sooner(rot, nb)[0], false, Sooner(rot, nb)[0])
    case Roxr =>
      var rot := RotateRight(WithX(z, bm, x), n % (nb + 1), nb + 1);
      Finish(z, And(rot[..32], mask), Sooner(rot, nb)[0], false, Sooner(rot, nb)[0])
  }

  /** {X, value}, X just above the value's top bit. */
  function WithX(z: Size, bm: Long, x: bool): (w: Vec)
    ensures |w| == 33
    ensures Within(bm, Bits(z)) ==> forall i :: 0 <= i < 33 ==> w[i] == if i == Bits(z) then x else i < 32 && bm[i]
  {
    hide Or, At;
    Or(At(33, Bits(z), x), bm + [false])
  }

  /** ASL's V: not all of the top count+1 bits alike. */
  function AslOver(z: Size, bm: Long, n: nat): bool {
    if n >= Bits(z) then bm != Ones(32, 0)
    else
      var win := Sooner(bm, Bits(z) - 1 - n);
      !(win == Ones(32, 0) || win == Ones(32, n + 1))
  }

  /** What EX writes for a shift by `n`: a count of zero does not go through the shifter. */
  function Shift(op: Op, z: Size, b: Long, x: bool, n: nat): Out {
    if n == 0 then Finish(z, And(b, Mask(z)), x, false, (op == Roxl || op == Roxr) && x)
    else Barrel(op, z, b, x, n)
  }

  // ---------------------------------------------------------------- one place at a time

  /** One place, as the single-bit primitives of the ALU have it: the bit out goes to C, and to X but for a
    plain rotate; ASL's V remembers any change of the sign. */
  function Step(op: Op, z: Size, s: Out): Out {
    var nb, mask := Bits(z), Mask(z);
    var bm := And(s.r, mask);
    var msb, lsb := bm[nb - 1], bm[0];
    match op
    case Asl => Finish(z, ShiftLeft(bm, 1, nb), msb, s.f.v || msb != bm[nb - 2], msb)
    case Lsl => Finish(z, ShiftLeft(bm, 1, nb), msb, false, msb)
    case Lsr => Finish(z, Sooner(bm, 1), lsb, false, lsb)
    case Asr => Finish(z, InRight(bm, nb, msb), lsb, false, lsb)
    case Rol => Finish(z, InLeft(bm, nb, msb), s.f.x, false, msb)
    case Ror => Finish(z, InRight(bm, nb, lsb), s.f.x, false, lsb)
    case Roxl => Finish(z, InLeft(bm, nb, s.f.x), msb, false, msb)
    case Roxr => Finish(z, InRight(bm, nb, s.f.x), lsb, false, lsb)
  }

  /** `n` single steps from the operand: X kept, N and Z its own, V and C clear (C = X for ROXx). */
  function Steps(op: Op, z: Size, b: Long, x: bool, n: nat): Out {
    if n == 0 then Shift(op, z, b, x, 0) else Step(op, z, Steps(op, z, b, x, n - 1))
  }

  // ---------------------------------------------------------------- where each bit goes

  /** Bit `i` of a container of the value's bits with X above them. */
  function Held(z: Size, b: Long, x: bool, i: nat): bool { if i < Bits(z) then b[i] else x }

  /** Bit `i` of the operand moved `n` places. */
  function Moved(op: Op, z: Size, b: Long, x: bool, n: nat, i: nat): bool
    requires i < Bits(z)
  {
    var nb := Bits(z);
    match op
    case Asl => i >= n && b[i - n]
    case Lsl => i >= n && b[i - n]
    case Lsr => i + n < nb && b[i + n]
    case Asr => b[if i + n < nb then i + n else nb - 1]
    case Rol => b[Below(i, n % nb, nb)]
    case Ror => b[Above(i, n % nb, nb)]
    case Roxl => Held(z, b, x, Below(i, n % (nb + 1), nb + 1))
    case Roxr => Held(z, b, x, Above(i, n % (nb + 1), nb + 1))
  }

  /** C: the last bit to go out, or to wrap. */
  function Gone(op: Op, z: Size, b: Long, x: bool, n: nat): bool {
    var nb := Bits(z);
    match op
    case Asl => 0 < n <= nb && b[nb - n]
    case Lsl => 0 < n <= nb && b[nb - n]
    case Lsr => 0 < n <= nb && b[n - 1]
    case Asr => 0 < n && b[if n < nb then n - 1 else nb - 1]
    case Rol => 0 < n && Moved(op, z, b, x, n, 0)
    case Ror => 0 < n && Moved(op, z, b, x, n, nb - 1)
    case Roxl => Held(z, b, x, Below(nb, n % (nb + 1), nb + 1))
    case Roxr => Held(z, b, x, Above(nb, n % (nb + 1), nb + 1))
  }

  predicate Rotates(op: Op) { op == Rol || op == Ror }

  /** `o` is the operand moved `n` places, V apart. */
  ghost predicate MovedBy(op: Op, z: Size, b: Long, x: bool, n: nat, o: Out) {
    && (forall i :: 0 <= i < 32 ==> o.r[i] == (i < Bits(z) && Moved(op, z, b, x, n, i)))
    && o.f.c == Gone(op, z, b, x, n)
    && o.f.x == (if n == 0 || Rotates(op) then x else o.f.c)
    && o.f.n == o.r[Bits(z) - 1] && o.f.z == Zero(z, o.r)
  }

  lemma NoShift(op: Op, z: Size, b: Long, x: bool)
    ensures MovedBy(op, z, b, x, 0, Shift(op, z, b, x, 0))
  {
    hide And, Ones, Barrel, Zero, Bits, Moved, Gone;
    forall i | 0 <= i < Bits(z) ensures Moved(op, z, b, x, 0, i) == b[i] { NotMoved(op, z, b, x, i); }
    NotMoved(op, z, b, x, 0);
  }

  lemma NotMoved(op: Op, z: Size, b: Long, x: bool, i: nat)
    requires i < Bits(z)
    ensures Moved(op, z, b, x, 0, i) == b[i] && Gone(op, z, b, x, 0) == ((op == Roxl || op == Roxr) && x)
  {
  }

  lemma AslMoves(z: Size, b: Long, x: bool, n: nat)
    requires n > 0
    ensures MovedBy(Asl, z, b, x, n, Barrel(Asl, z, b, x, n))
  {
    hide Later, Sooner, And, Or, Not, Ones, At, Pick, ShiftLeft, RotateLeft, RotateRight, SignFill, WithX, AslOver,
      Zero, Bits;
  }

  lemma LslMoves(z: Size, b: Long, x: bool, n: nat)
    requires n > 0
    ensures MovedBy(Lsl, z, b, x, n, Barrel(Lsl, z, b, x, n))
  {
    hide Later, Sooner, And, Or, Not, Ones, At, Pick, ShiftLeft, RotateLeft, RotateRight, SignFill, WithX, AslOver,
      Zero, Bits;
  }

  lemma LsrMoves(z: Size, b: Long, x: bool, n: nat)
    requires n > 0
    ensures MovedBy(Lsr, z, b, x, n, Barrel(Lsr, z, b, x, n))
  {
    hide Later, Sooner, And, Or, Not, Ones, At, Pick, ShiftLeft, RotateLeft, RotateRight, SignFill, WithX, AslOver,
      Zero, Bits;
  }

  lemma AsrMoves(z: Size, b: Long, x: bool, n: nat)
    requires n > 0
    ensures MovedBy(Asr, z, b, x, n, Barrel(Asr, z, b, x, n))
  {
    hide Later, Sooner, And, Or, Not, Ones, At, Pick, ShiftLeft, RotateLeft, RotateRight, SignFill, WithX, AslOver,
      Zero, Bits;
  }

  lemma RolMoves(z: Size, b: Long, x: bool, n: nat)
    requires n > 0
    ensures MovedBy(Rol, z, b, x, n, Barrel(Rol, z, b, x, n))
  {
    hide Later, Sooner, And, Or, Not, Ones, At, Pick, ShiftLeft, RotateLeft, RotateRight, SignFill, WithX, AslOver,
      Zero, Bits;
  }

  lemma RorMoves(z: Size, b: Long, x: bool, n: nat)
    requires n > 0
    ensures MovedBy(Ror, z, b, x, n, Barrel(Ror, z, b, x, n))
  {
    hide Later, Sooner, And, Or, Not, Ones, At, Pick, ShiftLeft, RotateLeft, RotateRight, SignFill, WithX, AslOver,
      Zero, Bits;
  }

  /** The value-and-X container rotated, bit by bit. */
  lemma ContainerBits(z: Size, b: Long, x: bool, k: nat)
    requires k <= Bits(z)
    ensures var w, m := WithX(z, And(b, Mask(z)), x), Bits(z) + 1;
            && (forall i :: 0 <= i < 33 ==> RotateLeft(w, k, m)[i] == (i < m && Held(z, b, x, Below(i, k, m))))
            && (forall i :: 0 <= i < 33 ==> RotateRight(w, k, m)[i] == (i < m && Held(z, b, x, Above(i, k, m))))
  {
    hide Later, Sooner, And, Or, Ones, RotateLeft, RotateRight, WithX, Bits;
  }

  lemma RoxlMoves(z: Size, b: Long, x: bool, n: nat)
    requires n > 0
    ensures MovedBy(Roxl, z, b, x, n, Barrel(Roxl, z, b, x, n))
  {
    hide Later, Sooner, And, Or, Not, Ones, At, Pick, ShiftLeft, RotateLeft, RotateRight, SignFill, WithX, AslOver,
      Zero, Bits, Below, Held;
    ContainerBits(z, b, x, n % (Bits(z) + 1));
  }

  lemma RoxrMoves(z: Size, b: Long, x: bool, n: nat)
    requires n > 0
    ensures MovedBy(Roxr, z, b, x, n, Barrel(Roxr, z, b, x, n))
  {
    hide Later, Sooner, And, Or, Not, Ones, At, Pick, ShiftLeft, RotateLeft, RotateRight, SignFill, WithX, AslOver,
      Zero, Bits, Above, Held;
    ContainerBits(z, b, x, n % (Bits(z) + 1));
  }

  /** The same over all the operations. */
  lemma ShiftMoves(op: Op, z: Size, b: Long, x: bool, n: nat)
    ensures MovedBy(op, z, b, x, n, Shift(op, z, b, x, n))
  {
    hide MovedBy, Barrel, Finish;
    if n == 0 { NoShift(op, z, b, x); }
    else {
      match op
      case Asl => AslMoves(z, b, x, n);
      case Lsl => LslMoves(z, b, x, n);
      case Lsr => LsrMoves(z, b, x, n);
      case Asr => AsrMoves(z, b, x, n);
      case Rol => RolMoves(z, b, x, n);
      case Ror => RorMoves(z, b, x, n);
      case Roxl => RoxlMoves(z, b, x, n);
      case Roxr => RoxrMoves(z, b, x, n);
    }
  }

  // ---------------------------------------------------------------- one more place

  /** Bit `i` after one place: the next bit along, or the one that comes in. */
  function Shifted(op: Op, z: Size, v: Long, x: bool, i: nat): bool
    requires i < Bits(z)
  {
    var nb := Bits(z);
    match op
    case Asl => i > 0 && v[i - 1]
    case Lsl => i > 0 && v[i - 1]
    case Lsr => i + 1 < nb && v[i + 1]
    case Asr => v[if i + 1 < nb then i + 1 else i]
    case Rol => v[if i > 0 then i - 1 else nb - 1]
    case Ror => v[if i + 1 < nb then i + 1 else 0]
    case Roxl => if i > 0 then v[i - 1] else x
    case Roxr => if i + 1 < nb then v[i + 1] else x
  }

  predicate Left(op: Op) { op == Asl || op == Lsl || op == Rol || op == Roxl }

  /** What one place does, bit by bit. */
  ghost predicate Steps1(op: Op, z: Size, s: Out, t: Out) {
    var nb := Bits(z);
    && (forall i :: 0 <= i < 32 ==> t.r[i] == (i < nb && Shifted(op, z, s.r, s.f.x, i)))
    && t.f.c == s.r[if Left(op) then nb - 1 else 0]
    && t.f.x == (if Rotates(op) then s.f.x else t.f.c)
    && t.f.n == t.r[nb - 1] && t.f.z == Zero(z, t.r)
    && t.f.v == (op == Asl && (s.f.v || s.r[nb - 1] != s.r[nb - 2]))
  }

  lemma LeftBits(op: Op, z: Size, s: Out)
    requires Left(op)
    ensures Steps1(op, z, s, Step(op, z, s))
  {
    hide Later, Sooner, And, Or, Ones, At, Zero, Bits, ShiftLeft, InLeft, InRight;
  }

  lemma LsrBits(z: Size, s: Out)
    ensures Steps1(Lsr, z, s, Step(Lsr, z, s))
  {
    hide Later, Sooner, And, Or, Ones, At, Zero, Bits, ShiftLeft, InLeft, InRight;
  }

  lemma AsrBits(z: Size, s: Out)
    ensures Steps1(Asr, z, s, Step(Asr, z, s))
  {
    hide Later, Sooner, And, Or, Ones, At, Zero, Bits, ShiftLeft, InLeft, InRight, Shifted;
    var nb, t := Bits(z), Step(Asr, z, s);
    AsrShifted(z, s);
    forall i | 0 <= i < 32 ensures t.r[i] == (i < nb && Shifted(Asr, z, s.r, s.f.x, i)) {
      assert i < nb ==> Shifted(Asr, z, s.r, s.f.x, i) == s.r[if i + 1 < nb then i + 1 else i];
    }
  }

  lemma AsrShifted(z: Size, s: Out)
    ensures forall i :: 0 <= i < Bits(z) ==> Shifted(Asr, z, s.r, s.f.x, i) == s.r[if i + 1 < Bits(z) then i + 1 else i]
  {
    hide Bits;
  }

  lemma RorBits(z: Size, s: Out)
    ensures Steps1(Ror, z, s, Step(Ror, z, s))
  {
    hide Later, Sooner, And, Or, Ones, At, Zero, Bits, ShiftLeft, InLeft, InRight;
  }

  lemma RoxrBits(z: Size, s: Out)
    ensures Steps1(Roxr, z, s, Step(Roxr, z, s))
  {
    hide Later, Sooner, And, Or, Ones, At, Zero, Bits, ShiftLeft, InLeft, InRight;
  }

  lemma StepBits(op: Op, z: Size, s: Out)
    ensures Steps1(op, z, s, Step(op, z, s))
  {
    hide Steps1, Step;
    if Left(op) { LeftBits(op, z, s); }
    else {
      match op
      case Lsr => LsrBits(z, s);
      case Asr => AsrBits(z, s);
      case Ror => RorBits(z, s);
      case Roxr => RoxrBits(z, s);
    }
  }

  function Up(k: nat, m: nat): nat
    requires k < m
  {
    if k + 1 == m then 0 else k + 1
  }

  lemma RingZero(m: nat)
    ensures Above(m, 0, m + 1) == m && Below(m, 0, m + 1) == m && 0 % (m + 1) == 0
  {
  }

  lemma NextModIs(n: nat, m: nat)
    requires m > 1
    ensures (n + 1) % m == Up(n % m, m)
  {
    var q, r := n / m, n % m;
    if r + 1 < m { ModIs(n + 1, m, q, r + 1); } else { ModIs(n + 1, m, q + 1, 0); }
  }

  lemma ModIs(a: nat, m: nat, q: nat, r: nat)
    requires r < m && a == q * m + r
    ensures a % m == r
  {
    var q', r' := a / m, a % m;
    Apart(q, q', m);
    Apart(q', q, m);
  }

  lemma {:induction false} Apart(q: nat, p: nat, m: nat)
    ensures q < p ==> q * m + m <= p * m
  {
    if q < p {
      Apart(q, p - 1, m);
      assert p * m == (p - 1) * m + m;
    }
  }

  lemma NextMod(n: nat, z: Size)
    ensures (n + 1) % Bits(z) == Up(n % Bits(z), Bits(z))
    ensures (n + 1) % (Bits(z) + 1) == Up(n % (Bits(z) + 1), Bits(z) + 1)
  {
    hide Bits, Up;
    NextModIs(n, Bits(z));
    NextModIs(n, Bits(z) + 1);
  }

  lemma RingBit(i: nat, k: nat, m: nat)
    requires i < m && k < m
    ensures Below(if i > 0 then i - 1 else m - 1, k, m) == Below(i, Up(k, m), m)
    ensures Above(Up(i, m), k, m) == Above(i, Up(k, m), m)
  {
  }

  /** Moving a bit one place after `n` is moving it `n` + 1. */
  lemma OneMoreBit(op: Op, z: Size, b: Long, x: bool, n: nat, s: Out, i: nat)
    requires MovedBy(op, z, b, x, n, s) && i < Bits(z)
    ensures Shifted(op, z, s.r, s.f.x, i) == Moved(op, z, b, x, n + 1, i)
  {
    hide MovedBy, Shifted, Moved;
    if op.Rol? || op.Ror? { RotatedBit(op, z, b, x, n, s, i); }
    else if op.Roxl? || op.Roxr? { ExtendedBit(op, z, b, x, n, s, i); }
    else { PlainBit(op, z, b, x, n, s, i); }
  }

  lemma PlainBit(op: Op, z: Size, b: Long, x: bool, n: nat, s: Out, i: nat)
    requires MovedBy(op, z, b, x, n, s) && i < Bits(z)
    requires op.Asl? || op.Lsl? || op.Lsr? || op.Asr?
    ensures Shifted(op, z, s.r, s.f.x, i) == Moved(op, z, b, x, n + 1, i)
  {
    hide Zero, Bits, Gone;
  }

  lemma RotatedBit(op: Op, z: Size, b: Long, x: bool, n: nat, s: Out, i: nat)
    requires MovedBy(op, z, b, x, n, s) && i < Bits(z)
    requires op.Rol? || op.Ror?
    ensures Shifted(op, z, s.r, s.f.x, i) == Moved(op, z, b, x, n + 1, i)
  {
    hide Zero, Bits, Above, Below, Gone;
    NextMod(n, z);
    RingBit(i, n % Bits(z), Bits(z));
  }

  lemma ExtendedBit(op: Op, z: Size, b: Long, x: bool, n: nat, s: Out, i: nat)
    requires MovedBy(op, z, b, x, n, s) && i < Bits(z)
    requires op.Roxl? || op.Roxr?
    ensures Shifted(op, z, s.r, s.f.x, i) == Moved(op, z, b, x, n + 1, i)
  {
    hide Zero, Bits, Above, Below;
    var m := Bits(z) + 1;
    NextMod(n, z);
    RingBit(i, n % m, m);
    RingZero(Bits(z));
  }

  lemma OneMoreCarry(op: Op, z: Size, b: Long, x: bool, n: nat, s: Out)
    requires MovedBy(op, z, b, x, n, s)
    ensures s.r[if Left(op) then Bits(z) - 1 else 0] == Gone(op, z, b, x, n + 1)
  {
    hide Zero, Bits, Above, Below;
    var nb := Bits(z);
    NextMod(n, z);
    RingBit(0, n % nb, nb);
    RingBit(nb - 1, n % nb, nb);
    RingBit(nb, n % (nb + 1), nb + 1);
  }

  // ---------------------------------------------------------------- V

  /** Bit `j` of the operand with zeros below it. */
  function Bit(b: Long, j: int): bool { 0 <= j < 32 && b[j] }

  /** The bits from `lo` up to the sign are not all alike. */
  ghost predicate Differ(bm: Long, lo: int, nb: nat)
    requires 0 < nb <= 32
  {
    exists p :: lo <= p < nb && Bit(bm, p) != bm[nb - 1]
  }

  /** ASL's V: among the bits that have been, or are, in the sign's place, two differ. */
  lemma AslOverMeans(z: Size, bm: Long, n: nat)
    requires Within(bm, Bits(z))
    ensures AslOver(z, bm, n) <==> Differ(bm, Bits(z) - 1 - n, Bits(z))
  {
    hide Sooner, Ones, Bits;
    var nb := Bits(z);
    if n >= nb {
      if bm != Ones(32, 0) {
        var i :| 0 <= i < 32 && bm[i];
        assert Bit(bm, -1) != bm[nb - 1] || Bit(bm, i) != bm[nb - 1];
      }
    } else {
      var win := Sooner(bm, nb - 1 - n);
      assert win[n] == bm[nb - 1];
      if Differ(bm, nb - 1 - n, nb) {
        var p :| nb - 1 - n <= p < nb && Bit(bm, p) != bm[nb - 1];
        assert win[p - (nb - 1 - n)] != win[n];
      } else {
        forall i | 0 <= i < 32 ensures win[i] == (i <= n && bm[nb - 1]) {
          if i <= n { assert Bit(bm, i + (nb - 1 - n)) == bm[nb - 1]; }
        }
        assert win == if bm[nb - 1] then Ones(32, n + 1) else Ones(32, 0);
      }
    }
  }

  lemma AslOverGrows(z: Size, bm: Long, n: nat)
    requires Within(bm, Bits(z))
    ensures AslOver(z, bm, n + 1) <==>
              (n > 0 && AslOver(z, bm, n)) || Bit(bm, Bits(z) - 1 - n) != Bit(bm, Bits(z) - 2 - n)
  {
    hide AslOver, Bits;
    AslOverMeans(z, bm, n);
    AslOverMeans(z, bm, n + 1);
    var nb, top := Bits(z), bm[Bits(z) - 1];
    assert Differ(bm, nb - 2 - n, nb) <==> Differ(bm, nb - 1 - n, nb) || Bit(bm, nb - 2 - n) != top;
  }

  // ---------------------------------------------------------------- the closed form is the iteration

  lemma SameOut(op: Op, z: Size, b: Long, x: bool, n: nat, o: Out, p: Out)
    requires MovedBy(op, z, b, x, n, o) && MovedBy(op, z, b, x, n, p) && o.f.v == p.f.v
    ensures o == p
  {
    hide Moved, Gone, Zero, Bits;
    assert o.r == p.r;
  }

  lemma StepMoves(op: Op, z: Size, b: Long, x: bool, n: nat, s: Out)
    requires MovedBy(op, z, b, x, n, s)
    ensures MovedBy(op, z, b, x, n + 1, Step(op, z, s))
  {
    hide Moved, Gone, Zero, Bits, Step, Shifted;
    StepBits(op, z, s);
    forall i | 0 <= i < Bits(z) ensures Shifted(op, z, s.r, s.f.x, i) == Moved(op, z, b, x, n + 1, i) {
      OneMoreBit(op, z, b, x, n, s, i);
    }
    OneMoreCarry(op, z, b, x, n, s);
  }

  lemma StepOver(op: Op, z: Size, b: Long, x: bool, n: nat)
    ensures Step(op, z, Shift(op, z, b, x, n)).f.v == Shift(op, z, b, x, n + 1).f.v
  {
    hide Later, Sooner, And, Ones, Step, AslOver, Zero, Bits, ShiftLeft, RotateLeft, RotateRight, SignFill, WithX;
    var s := Shift(op, z, b, x, n);
    StepBits(op, z, s);
    if op == Asl {
      ShiftMoves(op, z, b, x, n);
      AslOverGrows(z, And(b, Mask(z)), n);
    }
  }

  lemma ZeroIs(z: Size, r: Long)
    ensures Zero(z, r) <==> forall i :: 0 <= i < Bits(z) ==> !r[i]
  {
    hide And, Ones, Bits;
    var v := And(r, Mask(z));
    assert forall i :: 0 <= i < 32 ==> v[i] == (r[i] && i < Bits(z));
    if forall i :: 0 <= i < Bits(z) ==> !r[i] { assert v == Ones(32, 0); }
  }

  /** Two of the operand's bits that pass, or come to, the sign's place in `n` steps left differ, zeros coming in below. */
  ghost predicate SignChanges(z: Size, b: Long, n: nat) {
    exists p :: Bits(z) - 1 - n <= p < Bits(z) && Bit(b, p) != b[Bits(z) - 1]
  }

  /** N and Z are the result's top bit and its being zero; V is ASL's alone, and says that the sign changed on the way. */
  lemma ShiftFlags(op: Op, z: Size, b: Long, x: bool, n: nat)
    ensures var o := Shift(op, z, b, x, n);
            && o.f.n == o.r[Bits(z) - 1] && (o.f.z <==> forall i :: 0 <= i < Bits(z) ==> !o.r[i])
            && (o.f.v <==> op == Asl && n > 0 && SignChanges(z, b, n))
  {
    ShiftMoves(op, z, b, x, n);
    ZeroIs(z, Shift(op, z, b, x, n).r);
    OverIs(op, z, b, x, n);
    hide Shift, Moved, Gone, Zero, Bits;
    if op == Asl && n > 0 {
      AslOverMeans(z, And(b, Mask(z)), n);
      SameChanges(z, b, n);
    }
  }

  lemma OverIs(op: Op, z: Size, b: Long, x: bool, n: nat)
    ensures Shift(op, z, b, x, n).f.v == (op == Asl && n > 0 && AslOver(z, And(b, Mask(z)), n))
  {
    hide Later, Sooner, And, Or, Not, Ones, At, Pick, ShiftLeft, RotateLeft, RotateRight, SignFill, WithX, AslOver, Zero, Bits;
  }

  lemma SameChanges(z: Size, b: Long, n: nat)
    ensures Differ(And(b, Mask(z)), Bits(z) - 1 - n, Bits(z)) <==> SignChanges(z, b, n)
  {
    hide And, Ones, Bits;
    var bm, nb := And(b, Mask(z)), Bits(z);
    assert forall i :: 0 <= i < nb ==> bm[i] == b[i];
    assert forall p :: p < nb ==> Bit(bm, p) == Bit(b, p);
  }

  /** For every operation, size, operand, X and count: the shifter's result and all five flags are those of
    shifting one place at a time; a count of zero is no step at all. */
  lemma {:induction false} BarrelIsIteration(op: Op, z: Size, b: Long, x: bool, n: nat)
    ensures Shift(op, z, b, x, n) == Steps(op, z, b, x, n)
  {
    hide Shift, Step, MovedBy;
    if n > 0 {
      BarrelIsIteration(op, z, b, x, n - 1);
      var s := Shift(op, z, b, x, n - 1);
      ShiftMoves(op, z, b, x, n - 1);
      StepMoves(op, z, b, x, n - 1, s);
      ShiftMoves(op, z, b, x, n);
      StepOver(op, z, b, x, n - 1);
      SameOut(op, z, b, x, n, Step(op, z, s), Shift(op, z, b, x, n));
    }
  }
}
