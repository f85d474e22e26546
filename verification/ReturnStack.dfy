/** ID's return-address stack: eight entries that wrap, against an unbounded one. */
module ReturnStack {
  import opened Memory

  const RAS_N: nat := 8

  /** `sp` is the next free entry, `n` how many are held. */
  datatype Ras = Ras(st: seq<Addr>, sp: nat, n: nat)

  predicate ValidRas(r: Ras) { |r.st| == RAS_N && r.sp < RAS_N && r.n <= RAS_N }

  function RasPush(r: Ras, a: Addr): (t: Ras)
    requires ValidRas(r)
    ensures ValidRas(t)
  {
    Ras(r.st[r.sp := a], (r.sp + 1) % RAS_N, if r.n == RAS_N then r.n else r.n + 1)
  }

  function RasPop(r: Ras): (t: Ras)
    requires ValidRas(r)
    ensures ValidRas(t)
  {
    if r.n == 0 then r else Ras(r.st, (r.sp + 7) % RAS_N, r.n - 1)
  }

  /** What ID predicts an RTS returns to, when `n` is not 0. */
  function RasTop(r: Ras): Addr
    requires ValidRas(r)
  {
    r.st[(r.sp + 7) % RAS_N]
  }

  /** What ID emits, as far as the stack is concerned. */
  datatype Emitted = Calls(next: Addr) | Returns | Other

  /** The entries and pointers as the clocked block updates them. */
  class ReturnAddresses {
    const ras: array<Addr>
    var sp: nat
    var n: nat

    ghost predicate Valid()
      reads this
    {
      ras.Length == RAS_N && sp < RAS_N && n <= RAS_N
    }

    ghost function View(): (r: Ras)
      reads this, ras
      requires Valid()
      ensures ValidRas(r)
    {
      Ras(ras[..], sp, n)
    }

    constructor ()
      ensures Valid() && fresh(ras) && n == 0 && sp == 0
    {
      ras := new Addr[RAS_N](_ => 0);
      sp, n := 0, 0;
    }

    /** The predicted target of an RTS, if there is an entry. */
    method Predict() returns (top: Option<Addr>)
      requires Valid()
      ensures top == if n == 0 then None else Some(RasTop(View()))
    {
      top := if n == 0 then None else Some(ras[(sp + 7) % RAS_N]);
    }

    method Step(emit: bool, e: Emitted)
      requires Valid()
      modifies this, ras
      ensures Valid()
      ensures View() == if !emit || e.Other? then old(View())
                        else if e.Calls? then RasPush(old(View()), e.next) else RasPop(old(View()))
    {
      if emit {
        match e
        case Calls(a) =>
          ras[sp] := a;
          sp := (sp + 1) % RAS_N;
          if n != RAS_N { n := n + 1; }
        case Returns =>
          if n != 0 { sp, n := (sp + 7) % RAS_N, n - 1; }
        case Other =>
      }
    }
  }

  // ---------------------------------------------------------------- against an unbounded stack

  datatype Flow = Call(ret: Addr) | Return

  function Run(r: Ras, fs: seq<Flow>): (t: Ras)
    requires ValidRas(r)
    ensures ValidRas(t)
  {
    if fs == [] then r
    else
      var t := Run(r, fs[..|fs| - 1]);
      match fs[|fs| - 1] case Call(a) => RasPush(t, a) case Return => RasPop(t)
  }

  /** The ideal stack, newest last; a return on an empty one leaves it empty. */
  function Ideal(i: seq<Addr>, fs: seq<Flow>): seq<Addr> {
    if fs == [] then i
    else
      var t := Ideal(i, fs[..|fs| - 1]);
      match fs[|fs| - 1] case Call(a) => t + [a] case Return => if t == [] then [] else t[..|t| - 1]
  }

  /** The entry `k` places below the top. */
  function Entry(r: Ras, k: nat): Addr
    requires ValidRas(r) && k < RAS_N
  {
    r.st[(r.sp + 15 - k) % RAS_N]
  }

  /** The held entries are the newest of the ideal stack. */
  ghost predicate Newest(r: Ras, i: seq<Addr>) {
    && ValidRas(r) && r.n <= |i|
    && forall k :: 0 <= k < r.n ==> Entry(r, k) == i[|i| - 1 - k]
  }

  lemma PushNewest(r: Ras, i: seq<Addr>, a: Addr)
    requires Newest(r, i)
    ensures Newest(RasPush(r, a), i + [a])
  {
    var t := RasPush(r, a);
    forall k | 0 <= k < t.n ensures Entry(t, k) == (i + [a])[|i| - k] {
      if k > 0 { assert Entry(t, k) == Entry(r, k - 1); }
    }
  }

  lemma PopNewest(r: Ras, i: seq<Addr>)
    requires Newest(r, i)
    ensures Newest(RasPop(r), if i == [] then [] else i[..|i| - 1])
  {
    var t := RasPop(r);
    if r.n > 0 {
      forall k | 0 <= k < t.n ensures Entry(t, k) == i[..|i| - 1][|i| - 2 - k] {
        assert Entry(t, k) == Entry(r, k + 1);
      }
    }
  }

  /** For every sequence of calls and returns, after overflow and underflow too, the entries held are the
    ideal stack's newest; and the prediction made from them is its top. */
  lemma {:induction false} RasIsNewest(r: Ras, i: seq<Addr>, fs: seq<Flow>)
    requires Newest(r, i)
    ensures Newest(Run(r, fs), Ideal(i, fs))
    ensures Run(r, fs).n > 0 ==> Ideal(i, fs) != [] && RasTop(Run(r, fs)) == Ideal(i, fs)[|Ideal(i, fs)| - 1]
  {
    if fs != [] {
      var u, j := Run(r, fs[..|fs| - 1]), Ideal(i, fs[..|fs| - 1]);
      RasIsNewest(r, i, fs[..|fs| - 1]);
      match fs[|fs| - 1]
      case Call(a) => PushNewest(u, j, a);
      case Return => PopNewest(u, j);
    }
    var t, j := Run(r, fs), Ideal(i, fs);
    hide Run, Ideal;
    if t.n > 0 { assert Entry(t, 0) == j[|j| - 1]; }
  }

  /** Calls nested no deeper than the stack: every return is predicted, and rightly. */
  lemma {:induction false} ShallowIsExact(r: Ras, i: seq<Addr>, fs: seq<Flow>)
    requires Newest(r, i) && r.n == |i|
    requires forall k :: 0 <= k <= |fs| ==> |Ideal(i, fs[..k])| <= RAS_N
    ensures Run(r, fs).n == |Ideal(i, fs)|
  {
    if fs != [] {
      var f := fs[..|fs| - 1];
      forall k | 0 <= k <= |f| ensures |Ideal(i, f[..k])| <= RAS_N { assert f[..k] == fs[..k]; }
      ShallowIsExact(r, i, f);
      assert fs[..|fs|] == fs;
      assert |Ideal(i, fs[..|fs|])| <= RAS_N;
    }
  }
}
