// The discrete Fourier transform and its fast form, over exact arithmetic.
module Fourier {
  import opened Arith

  datatype Complex = C(re: real, im: real)

  const ZERO := C(0.0, 0.0)

  function Add(a: Complex, b: Complex): Complex { C(a.re + b.re, a.im + b.im) }

  function Sub(a: Complex, b: Complex): Complex { C(a.re - b.re, a.im - b.im) }

  function Mul(a: Complex, b: Complex): Complex { C(a.re * b.re - a.im * b.im, a.re * b.im + a.im * b.re) }

  function Scale(x: real, a: Complex): Complex { C(x * a.re, x * a.im) }

  function Neg(a: Complex): Complex { C(-a.re, -a.im) }

  lemma MulAddScale(w: Complex, a: Complex, x: real, u: Complex)
    ensures Mul(w, Add(a, Scale(x, u))) == Add(Mul(w, a), Scale(x, Mul(w, u)))
  {
    var p, q := x * u.re, x * u.im;
    assert w.re * (a.re + p) == w.re * a.re + w.re * p && w.im * (a.im + q) == w.im * a.im + w.im * q;
    assert w.re * (a.im + q) == w.re * a.im + w.re * q && w.im * (a.re + p) == w.im * a.re + w.im * p;
    assert w.re * p == x * (w.re * u.re) && w.im * q == x * (w.im * u.im);
    assert w.re * q == x * (w.re * u.im) && w.im * p == x * (w.im * u.re);
  }

  lemma MulNeg(a: Complex, b: Complex)
    ensures Mul(Neg(a), b) == Neg(Mul(a, b)) && Mul(a, C(-1.0, 0.0)) == Neg(a)
  {
  }

  // ---- the table of angles ----

  datatype Table = Table(cos: seq<real>, sin: seq<real>)

  predicate Sized(t: Table) { |t.cos| == |t.sin| > 0 }

  // the root of unity with index a, turning clockwise
  function Root(t: Table, a: nat): Complex
    requires Sized(t)
  {
    var i := a % |t.cos|;
    C(t.cos[i], -t.sin[i])
  }

  predicate RootsMultiply(t: Table, a: nat, b: nat)
    requires Sized(t)
  {
    Root(t, a + b) == Mul(Root(t, a), Root(t, b))
  }

  // indices add up as angles do, and half a turn negates
  ghost predicate Trigonometric(t: Table) {
    && Sized(t) && Root(t, 0) == C(1.0, 0.0)
    && (forall a: nat, b: nat :: RootsMultiply(t, a, b))
    && (|t.cos| % 2 == 0 ==> Root(t, |t.cos| / 2) == C(-1.0, 0.0))
  }

  lemma RootSum(t: Table, a: nat, b: nat)
    requires Trigonometric(t)
    ensures Root(t, a + b) == Mul(Root(t, a), Root(t, b))
  {
    hide Root, Mul;
    assert RootsMultiply(t, a, b);
  }

  lemma HalfTurn(t: Table)
    requires Trigonometric(t) && |t.cos| % 2 == 0
    ensures Root(t, |t.cos| / 2) == C(-1.0, 0.0)
  {
    hide Root, RootsMultiply;
  }

  lemma NoTurn(t: Table)
    requires Trigonometric(t)
    ensures Root(t, 0) == C(1.0, 0.0)
  {
    hide Root, RootsMultiply;
  }

  lemma FullTurns(t: Table, a: nat, m: nat)
    requires Sized(t)
    ensures Root(t, a + m * |t.cos|) == Root(t, a)
  {
    ModPlus(a, m, |t.cos|);
  }

  lemma ModPlus(a: nat, m: nat, n: nat)
    requires n > 0
    ensures (a + m * n) % n == a % n
  {
    assert a == n * (a / n) + a % n;
    assert n * (a / n) + m * n == n * (a / n + m);
    DivModUnique(a + m * n, n, a / n + m, a % n);
  }

  // the table index of term i of coefficient k
  function Turn(k: nat, i: nat, step: nat): nat { k * i * step }

  lemma TurnEven(k: nat, m: nat, s: nat)
    ensures Turn(k, m, 2 * s) == Turn(k, 2 * m, s)
  {
    assert k * m * (2 * s) == k * (2 * m) * s;
  }

  lemma TurnOdd(k: nat, i: nat, s: nat)
    ensures Turn(k, i + 1, s) == Turn(k, 1, s) + Turn(k, i, s)
  {
    assert k * (i + 1) == k * i + k;
    assert (k * i + k) * s == k * i * s + k * s;
  }

  lemma TurnAround(k: nat, n: nat, i: nat, s: nat)
    ensures Turn(k + n, i, s) == Turn(k, i, s) + i * (n * s)
  {
    assert (k + n) * i == k * i + n * i;
    assert (k * i + n * i) * s == k * i * s + n * i * s;
    assert n * i * s == i * (n * s);
  }

  // ---- the transform ----

  predicate Divides(t: Table, n: nat) { Sized(t) && n > 0 && |t.cos| % n == 0 }

  function StepOf(t: Table, n: nat): nat
    requires Sized(t) && n > 0
  {
    |t.cos| / n
  }

  // the first n terms of coefficient k
  function Partial(t: Table, x: seq<real>, k: nat, n: nat): Complex
    requires Sized(t) && n <= |x|
  {
    if n == 0 then ZERO
    else Add(Partial(t, x, k, n - 1), Scale(x[n - 1], Root(t, Turn(k, n - 1, StepOf(t, |x|)))))
  }

  // coefficient k of the transform of x
  function Coefficient(t: Table, x: seq<real>, k: nat): Complex
    requires Sized(t)
  {
    Partial(t, x, k, |x|)
  }

  function Evens(x: seq<real>): (r: seq<real>)
    requires |x| % 2 == 0
    ensures |r| == |x| / 2
  {
    seq(|x| / 2, i requires 0 <= i < |x| / 2 => x[2 * i])
  }

  function Odds(x: seq<real>): (r: seq<real>)
    requires |x| % 2 == 0
    ensures |r| == |x| / 2
  {
    seq(|x| / 2, i requires 0 <= i < |x| / 2 => x[2 * i + 1])
  }

  lemma HalfStep(t: Table, n: nat)
    requires Divides(t, n) && n % 2 == 0
    ensures n / 2 > 0 && Divides(t, n / 2) && StepOf(t, n / 2) == 2 * StepOf(t, n)
    ensures |t.cos| % 2 == 0 && n / 2 * StepOf(t, n) == |t.cos| / 2 && n / 2 * StepOf(t, n / 2) == |t.cos|
  {
    var h, s, l := n / 2, StepOf(t, n), |t.cos|;
    assert l == n * s;
    assert n * s == 2 * (h * s) && n * s == h * (2 * s);
    DivModUnique(l, h, 2 * s, 0);
  }

  lemma NextTerm(t: Table, x: seq<real>, k: nat, n: nat)
    requires Sized(t) && 0 < n <= |x|
    ensures Partial(t, x, k, n) ==
            Add(Partial(t, x, k, n - 1), Scale(x[n - 1], Root(t, Turn(k, n - 1, StepOf(t, |x|)))))
  {
    hide Root, Turn, StepOf;
  }

  lemma Regroup(e: Complex, p: Complex, x: real, u: Complex, y: real, v: Complex)
    ensures Add(Add(Add(e, p), Scale(x, u)), Scale(y, v)) == Add(Add(e, Scale(x, u)), Add(p, Scale(y, v)))
  {
    var a, b, c, d := x * u.re, x * u.im, y * v.re, y * v.im;
  }

  // the sum over the first 2m terms, even terms first
  lemma {:induction false} SplitSum(t: Table, x: seq<real>, k: nat, m: nat)
    requires Trigonometric(t) && Divides(t, |x|) && |x| % 2 == 0 && 2 * m <= |x|
    ensures Partial(t, x, k, 2 * m) ==
            Add(Partial(t, Evens(x), k, m), Mul(Root(t, Turn(k, 1, StepOf(t, |x|))), Partial(t, Odds(x), k, m)))
  {
    HalfStep(t, |x|);
    if m == 0 {
      MulZero(Root(t, Turn(k, 1, StepOf(t, |x|))));
    } else {
      hide Partial, Root, Turn, StepOf, Trigonometric, Divides, Mul, Add, Scale;
      var s := StepOf(t, |x|);
      var w, u := Root(t, Turn(k, 1, s)), Root(t, Turn(k, 2 * m - 2, s));
      var e, o := Partial(t, Evens(x), k, m - 1), Partial(t, Odds(x), k, m - 1);
      SplitSum(t, x, k, m - 1);
      NextTerm(t, x, k, 2 * m);
      NextTerm(t, x, k, 2 * m - 1);
      NextTerm(t, Evens(x), k, m);
      NextTerm(t, Odds(x), k, m);
      TurnEven(k, m - 1, s);
      TurnOdd(k, 2 * m - 2, s);
      RootSum(t, Turn(k, 1, s), Turn(k, 2 * m - 2, s));
      assert Evens(x)[m - 1] == x[2 * m - 2] && Odds(x)[m - 1] == x[2 * m - 1];
      MulAddScale(w, o, x[2 * m - 1], u);
      Regroup(e, Mul(w, o), x[2 * m - 2], u, x[2 * m - 1], Mul(w, u));
    }
  }

  lemma MulZero(w: Complex)
    ensures Mul(w, ZERO) == ZERO && Add(ZERO, ZERO) == ZERO
  {
  }

  // coefficients repeat after |y|
  lemma {:induction false} Repeats(t: Table, y: seq<real>, k: nat, m: nat)
    requires Sized(t) && |y| > 0 && |y| * StepOf(t, |y|) == |t.cos| && m <= |y|
    ensures Partial(t, y, k + |y|, m) == Partial(t, y, k, m)
  {
    if m > 0 {
      hide Root, Turn, StepOf;
      var s := StepOf(t, |y|);
      Repeats(t, y, k, m - 1);
      TurnAround(k, |y|, m - 1, s);
      FullTurns(t, Turn(k, m - 1, s), m - 1);
    }
  }

  // Two coefficients of x come from one coefficient each of its even and its odd half.
  lemma Butterfly(t: Table, x: seq<real>, k: nat)
    requires Trigonometric(t) && Divides(t, |x|) && |x| % 2 == 0 && k < |x| / 2
    ensures var w := Root(t, Turn(k, 1, StepOf(t, |x|)));
            var e, o := Coefficient(t, Evens(x), k), Coefficient(t, Odds(x), k);
            Coefficient(t, x, k) == Add(e, Mul(w, o)) && Coefficient(t, x, k + |x| / 2) == Sub(e, Mul(w, o))
  {
    HalfStep(t, |x|);
    HalfTurn(t);
    hide Partial, Root, Turn, StepOf, Trigonometric, Divides, Mul;
    var h, s := |x| / 2, StepOf(t, |x|);
    SplitSum(t, x, k, h);
    SplitSum(t, x, k + h, h);
    Repeats(t, Evens(x), k, h);
    Repeats(t, Odds(x), k, h);
    TurnAround(k, h, 1, s);
    RootSum(t, Turn(k, 1, s), h * s);
    var w, o := Root(t, Turn(k, 1, s)), Coefficient(t, Odds(x), k);
    MulNeg(w, C(-1.0, 0.0));
    MulNeg(w, o);
  }

  // ---- the programs: in and out are cut from larger buffers ----

  ghost predicate HoldsAt(t: Table, x: seq<real>, cells: seq<real>, k: nat)
    requires Sized(t) && 2 * k + 1 < |cells|
  {
    C(cells[2 * k], cells[2 * k + 1]) == Coefficient(t, x, k)
  }

  // cells hold the coefficients lo to hi - 1 of x, two cells each
  ghost predicate HoldsRange(t: Table, x: seq<real>, cells: seq<real>, lo: nat, hi: nat)
    requires Sized(t)
  {
    2 * hi <= |cells| && forall k: nat :: lo <= k < hi ==> HoldsAt(t, x, cells, k)
  }

  // cells hold the transform of x
  ghost predicate IsTransform(t: Table, x: seq<real>, cells: seq<real>)
    requires Sized(t)
  {
    |cells| == 2 * |x| && HoldsRange(t, x, cells, 0, |x|)
  }

  // ---- the transform in sines and cosines ----

  // the sum of x[i] times the table's entry for the angle of term i of coefficient k, over the first n terms
  function SumOver(angles: seq<real>, x: seq<real>, k: nat, n: nat): real
    requires |angles| > 0 && n <= |x|
  {
    if n == 0 then 0.0
    else SumOver(angles, x, k, n - 1) + Times(x[n - 1], angles[AngleOf(k, n - 1, |angles| / |x|, |angles|)])
  }

  function Times(a: real, b: real): real { a * b }

  // the entry for the angle of term i of coefficient k
  function AngleOf(k: nat, i: nat, step: nat, size: nat): (a: nat)
    requires size > 0
    ensures a < size
  {
    k * i * step % size
  }

  lemma {:induction false} PartialIsSums(t: Table, x: seq<real>, k: nat, n: nat)
    requires Sized(t) && n <= |x|
    ensures Partial(t, x, k, n) == C(SumOver(t.cos, x, k, n), -SumOver(t.sin, x, k, n))
  {
    hide Times, AngleOf, Scale, Root, Turn, StepOf;
    if n > 0 {
      PartialIsSums(t, x, k, n - 1);
      ScaleRoot(t, x[n - 1], k, n - 1, |x|);
    }
  }

  lemma ScaleRoot(t: Table, x: real, k: nat, i: nat, n: nat)
    requires Sized(t) && n > 0
    ensures var a := AngleOf(k, i, |t.cos| / n, |t.cos|);
            Scale(x, Root(t, Turn(k, i, StepOf(t, n)))) == C(Times(x, t.cos[a]), -Times(x, t.sin[a]))
  {
  }

  // The real parts are the sums with the cosines, the imaginary parts the negated sums with the sines.
  lemma TransformIsSums(t: Table, x: seq<real>, cells: seq<real>)
    requires Sized(t)
    ensures IsTransform(t, x, cells) <==>
            |cells| == 2 * |x| && forall k: nat :: k < |x| ==> Sums(t, x, cells, k)
  {
    hide Partial, SumOver;
    forall k: nat | k < |x| && |cells| == 2 * |x| ensures HoldsAt(t, x, cells, k) <==> Sums(t, x, cells, k) {
      PartialIsSums(t, x, k, |x|);
    }
    hide HoldsAt, Sums;
  }

  ghost predicate Sums(t: Table, x: seq<real>, cells: seq<real>, k: nat)
    requires Sized(t)
  {
    && 2 * k + 1 < |cells|
    && cells[2 * k] == SumOver(t.cos, x, k, |x|) && cells[2 * k + 1] == -SumOver(t.sin, x, k, |x|)
  }

  lemma HoldsMore(t: Table, x: seq<real>, before: seq<real>, after: seq<real>, lo: nat, hi: nat)
    requires Sized(t) && lo <= hi && HoldsRange(t, x, before, lo, hi)
    requires |before| == |after| >= 2 * hi + 2 && before[2 * lo..2 * hi] == after[2 * lo..2 * hi]
    requires C(after[2 * hi], after[2 * hi + 1]) == Coefficient(t, x, hi)
    ensures HoldsRange(t, x, after, lo, hi + 1)
  {
    hide Coefficient;
    forall k: nat | lo <= k < hi + 1 ensures HoldsAt(t, x, after, k) {
      if k < hi {
        assert HoldsAt(t, x, before, k);
        assert before[2 * lo..2 * hi][2 * k - 2 * lo] == after[2 * lo..2 * hi][2 * k - 2 * lo];
        assert before[2 * lo..2 * hi][2 * k + 1 - 2 * lo] == after[2 * lo..2 * hi][2 * k + 1 - 2 * lo];
      }
    }
  }

  // only cells from lo to hi differ
  twostate predicate ChangedOnly(a: array<real>, lo: int, hi: int)
    reads a
  {
    forall i :: 0 <= i < a.Length && !(lo <= i < hi) ==> a[i] == old(a[i])
  }

  method Dft(t: Table, input: array<real>, from: nat, n: nat, out: array<real>, at: nat)
    requires Divides(t, n) && from + n <= input.Length && at + 2 * n <= out.Length && input != out
    modifies out
    ensures IsTransform(t, input[from..from + n], out[at..at + 2 * n])
    ensures ChangedOnly(out, at, at + 2 * n)
  {
    hide Coefficient;
    ghost var x := input[from..from + n];
    for k := 0 to n
      invariant HoldsRange(t, x, out[at..at + 2 * n], 0, k)
      invariant ChangedOnly(out, at, at + 2 * n)
    {
      hide HoldsRange;
      ghost var before := out[at..at + 2 * n];
      var re, im := SumTerms(t, input, from, n, k);
      out[at + 2 * k] := re;
      out[at + 2 * k + 1] := im;
      HoldsMore(t, x, before, out[at..at + 2 * n], 0, k);
    }
  }

  method SumTerms(t: Table, input: array<real>, from: nat, n: nat, k: nat) returns (re: real, im: real)
    requires Divides(t, n) && from + n <= input.Length
    ensures C(re, im) == Coefficient(t, input[from..from + n], k)
  {
    hide Partial;
    var step := StepOf(t, n);
    ghost var x := input[from..from + n];
    re, im := 0.0, 0.0;
    NoTerms(t, x, k);
    for i := 0 to n
      invariant C(re, im) == Partial(t, x, k, i)
    {
      var idx := k * i * step % |t.cos|;
      assert x[i] == input[from + i] && Root(t, Turn(k, i, step)) == C(t.cos[idx], -t.sin[idx]);
      NextTerm(t, x, k, i + 1);
      hide Root, Turn, StepOf;
      re := re + input[from + i] * t.cos[idx];
      im := im - input[from + i] * t.sin[idx];
    }
  }

  lemma NoTerms(t: Table, x: seq<real>, k: nat)
    requires Sized(t)
    ensures Partial(t, x, k, 0) == ZERO
  {
  }

  lemma SingleCoefficient(t: Table, x: seq<real>)
    requires Trigonometric(t) && |x| == 1
    ensures Coefficient(t, x, 0) == C(x[0], 0.0)
  {
    NoTurn(t);
    NextTerm(t, x, 0, 1);
    assert Turn(0, 0, StepOf(t, 1)) == 0;
  }

  // input has scratch room for n more cells behind the n it reads; out has room for 8n
  method Fft(t: Table, input: array<real>, from: nat, n: nat, out: array<real>, at: nat)
    requires Trigonometric(t) && Divides(t, n) && input != out
    requires from + 2 * n <= input.Length && at + 8 * n <= out.Length
    modifies input, out
    ensures IsTransform(t, old(input[from..from + n]), out[at..at + 2 * n])
    ensures ChangedOnly(input, from + n, from + 2 * n) && ChangedOnly(out, at, at + 8 * n)
    decreases n
  {
    hide Trigonometric, Coefficient, StepOf, Root;
    ghost var x := input[from..from + n];
    if n == 1 {
      SingleCoefficient(t, x);
      out[at] := input[from];
      out[at + 1] := 0.0;
      assert HoldsAt(t, x, out[at..at + 2], 0);
      return;
    }
    var half := n / 2;
    if n - half * 2 == 1 {
      Dft(t, input, from, n, out, at);
      return;
    }
    HalfStep(t, n);
    hide Divides;
    TransformHalves(t, input, from, n, out, at, x);
    Combine(t, x, out, at, n);
  }

  // both halves, one after the other, over the same scratch cells of the input
  method TransformHalves(t: Table, input: array<real>, from: nat, n: nat, out: array<real>, at: nat, ghost x: seq<real>)
    requires Trigonometric(t) && Divides(t, n / 2) && input != out && n > 0 && n % 2 == 0
    requires from + 2 * n <= input.Length && at + 8 * n <= out.Length && x == input[from..from + n]
    modifies input, out
    ensures IsTransform(t, Evens(x), out[at + 2 * n..at + 3 * n]) &&
            IsTransform(t, Odds(x), out[at + 3 * n..at + 4 * n])
    ensures ChangedOnly(input, from + n, from + 2 * n) && ChangedOnly(out, at + 2 * n, at + 8 * n)
    decreases n, 0
  {
    hide Trigonometric, Coefficient, StepOf, Root, Divides, IsTransform, Evens, Odds;
    var half := n / 2;
    TakeEvery(input, from, n, 0);
    assert input[from + n..from + n + half] == Evens(x);
    Fft(t, input, from + n, half, out, at + 2 * n);
    ghost var evens := out[at + 2 * n..at + 3 * n];
    assert input[from..from + n] == x;
    TakeEvery(input, from, n, 1);
    assert input[from + n..from + n + half] == Odds(x);
    Fft(t, input, from + n, half, out, at + 3 * n);
    assert out[at + 2 * n..at + 3 * n] == evens;
  }

  // copies the even or the odd cells behind the input
  method TakeEvery(input: array<real>, from: nat, n: nat, odd: nat)
    requires n % 2 == 0 && odd < 2 && from + 2 * n <= input.Length
    modifies input
    ensures var x := old(input[from..from + n]);
            input[from + n..from + n + n / 2] == if odd == 0 then Evens(x) else Odds(x)
    ensures ChangedOnly(input, from + n, from + n + n / 2)
  {
    ghost var x := input[from..from + n];
    for i := 0 to n / 2
      invariant forall k :: from + n <= k < from + n + i ==> input[k] == x[2 * (k - from - n) + odd]
      invariant ChangedOnly(input, from + n, from + n + n / 2)
    {
      assert input[from + 2 * i + odd] == x[2 * i + odd];
      input[from + n + i] := input[from + 2 * i + odd];
    }
    ghost var taken := input[from + n..from + n + n / 2];
    assert forall i :: 0 <= i < n / 2 ==> taken[i] == x[2 * i + odd];
    assert odd == 0 ==> taken == Evens(x);
    assert odd == 1 ==> taken == Odds(x);
  }

  // joins the transforms of both halves
  method Combine(t: Table, ghost x: seq<real>, out: array<real>, at: nat, n: nat)
    requires Trigonometric(t) && Divides(t, n) && n == |x| && n % 2 == 0 && at + 8 * n <= out.Length
    requires IsTransform(t, Evens(x), out[at + 2 * n..at + 3 * n]) &&
             IsTransform(t, Odds(x), out[at + 3 * n..at + 4 * n])
    modifies out
    ensures IsTransform(t, x, out[at..at + 2 * n])
    ensures ChangedOnly(out, at, at + 2 * n)
  {
    assert Sized(t);
    hide Trigonometric, Coefficient, Divides, HoldsRange, IsTransform, Evens, Odds;
    ghost var evens, odds := out[at + 2 * n..at + 3 * n], out[at + 3 * n..at + 4 * n];
    NothingHeld(t, x, out[at..at + 2 * n], n / 2);
    for k := 0 to n / 2
      invariant HoldsRange(t, x, out[at..at + 2 * n], 0, k)
      invariant HoldsRange(t, x, out[at..at + 2 * n], n / 2, n / 2 + k)
      invariant ChangedOnly(out, at, at + 2 * n)
    {
      assert out[at + 2 * n..at + 3 * n] == evens && out[at + 3 * n..at + 4 * n] == odds;
      CombineAt(t, x, out, at, n, k);
    }
    BothHalves(t, x, out[at..at + 2 * n], n / 2);
  }

  method CombineAt(t: Table, ghost x: seq<real>, out: array<real>, at: nat, n: nat, k: nat)
    requires Trigonometric(t) && Divides(t, n) && n == |x| && n % 2 == 0 && at + 8 * n <= out.Length && k < n / 2
    requires IsTransform(t, Evens(x), out[at + 2 * n..at + 3 * n]) &&
             IsTransform(t, Odds(x), out[at + 3 * n..at + 4 * n])
    requires HoldsRange(t, x, out[at..at + 2 * n], 0, k) && HoldsRange(t, x, out[at..at + 2 * n], n / 2, n / 2 + k)
    modifies out
    ensures HoldsRange(t, x, out[at..at + 2 * n], 0, k + 1)
    ensures HoldsRange(t, x, out[at..at + 2 * n], n / 2, n / 2 + k + 1)
    ensures ChangedOnly(out, at, at + 2 * n)
  {
    assert Sized(t);
    hide Trigonometric, Coefficient, Divides, HoldsRange, IsTransform;
    var e := C(out[at + 2 * n + 2 * k], out[at + 2 * n + 2 * k + 1]);
    var o := C(out[at + 3 * n + 2 * k], out[at + 3 * n + 2 * k + 1]);
    HeldCoefficient(t, Evens(x), out[at + 2 * n..at + 3 * n], k);
    HeldCoefficient(t, Odds(x), out[at + 3 * n..at + 4 * n], k);
    var lo, hi := JoinPair(t, x, n, k, e, o);
    hide Evens, Odds;
    ghost var before := out[at..at + 2 * n];
    WritePair(out, at, n, k, lo, hi);
    ghost var after := out[at..at + 2 * n];
    assert before[0..2 * k] == after[0..2 * k];
    HoldsMore(t, x, before, after, 0, k);
    HoldsMore(t, x, before, after, n / 2, n / 2 + k);
  }

  method WritePair(out: array<real>, at: nat, n: nat, k: nat, lo: Complex, hi: Complex)
    requires at + 2 * n <= out.Length && n % 2 == 0 && k < n / 2
    modifies out
    ensures ChangedOnly(out, at, at + 2 * n)
    ensures var cells, h := out[at..at + 2 * n], k + n / 2;
            && cells[..2 * k] == old(out[at..at + 2 * n])[..2 * k]
            && cells[n..2 * h] == old(out[at..at + 2 * n])[n..2 * h]
            && C(cells[2 * k], cells[2 * k + 1]) == lo && C(cells[2 * h], cells[2 * h + 1]) == hi
  {
    var half := n / 2;
    out[at + 2 * k] := lo.re;
    out[at + 2 * k + 1] := lo.im;
    out[at + 2 * (k + half)] := hi.re;
    out[at + 2 * (k + half) + 1] := hi.im;
  }

  lemma NothingHeld(t: Table, x: seq<real>, cells: seq<real>, half: nat)
    requires Sized(t) && 2 * half <= |cells|
    ensures HoldsRange(t, x, cells, 0, 0) && HoldsRange(t, x, cells, half, half)
  {
  }

  lemma HeldCoefficient(t: Table, x: seq<real>, cells: seq<real>, k: nat)
    requires Sized(t) && IsTransform(t, x, cells) && k < |x|
    ensures C(cells[2 * k], cells[2 * k + 1]) == Coefficient(t, x, k)
  {
    assert HoldsAt(t, x, cells, k);
  }

  lemma BothHalves(t: Table, x: seq<real>, cells: seq<real>, half: nat)
    requires Sized(t) && |x| == 2 * half && |cells| == 2 * |x|
    requires HoldsRange(t, x, cells, 0, half) && HoldsRange(t, x, cells, half, half + half)
    ensures IsTransform(t, x, cells)
  {
  }

  method JoinPair(t: Table, ghost x: seq<real>, n: nat, k: nat, e: Complex, o: Complex)
    returns (lo: Complex, hi: Complex)
    requires Sized(t) && Trigonometric(t) && Divides(t, n) && n == |x| && n % 2 == 0 && k < n / 2
    requires e == Coefficient(t, Evens(x), k) && o == Coefficient(t, Odds(x), k)
    ensures lo == Coefficient(t, x, k) && hi == Coefficient(t, x, k + n / 2)
  {
    hide Trigonometric, Coefficient, Divides, Evens, Odds, StepOf, Root, Turn;
    IndexFits(t, n, k);
    Butterfly(t, x, k);
    var idx := k * StepOf(t, n);
    var re, im := t.cos[idx], -t.sin[idx];
    lo := C(e.re + re * o.re - im * o.im, e.im + re * o.im + im * o.re);
    hi := C(e.re - re * o.re + im * o.im, e.im - re * o.im - im * o.re);
  }

  lemma IndexFits(t: Table, n: nat, k: nat)
    requires Divides(t, n) && k < n
    ensures var idx := k * StepOf(t, n);
            0 <= idx < |t.cos| && Root(t, Turn(k, 1, StepOf(t, n))) == C(t.cos[idx], -t.sin[idx])
  {
    var s := StepOf(t, n);
    assert |t.cos| == n * s;
    ProductLess(k, n, s);
    DivModUnique(k * s, |t.cos|, 0, k * s);
  }
}
