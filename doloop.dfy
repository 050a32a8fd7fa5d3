/** The C `for` loop built for a Fortran DO loop, `xf_fortran_do`
    (src/translator.cpp:1087-1173): the counter is assigned its start value, the bound
    and the step are copied into fresh variables, and the loop tests the counter against
    the bound copy in the direction held by a third variable. The lemmas relate the number
    of passes of that loop to the iteration count of ISO/IEC 1539-1:2010 section 8.1.6.6.1. */
module DoLoop {
  import opened Ast

  const MsgDoInit := "Unhandled FortranDo Initialisation expression in ftc::xf_fortran_do"
  const MsgDoCounter := "Unhandled FortranDo Initialisation 2; assignOp LHS was not a variable"
  const BoundPrefix := "__fbound"
  const DirPrefix := "__fdir"
  const StepPrefix := "__fstep"

  /** The test of a loop without a step: `counter <= bound`. */
  function PlainTest(c: Expr, b: string): Expr
  {
    Bin(LessOrEqual, c, Var(b))
  }

  /** The update of a loop without a step: `++counter`. */
  function PlainUpdate(c: Expr): Expr
  {
    Un(Inc, c, false)
  }

  /** The test of a loop with a step: `dir ? counter <= bound : counter >= bound`. */
  function StepTest(c: Expr, b: string, d: string): Expr
  {
    Cond(Var(d), Bin(LessOrEqual, c, Var(b)), Bin(GreaterOrEqual, c, Var(b)))
  }

  /** The update of a loop with a step: `counter += step`. */
  function StepUpdate(c: Expr, s: string): Expr
  {
    Bin(PlusAssign, c, Var(s))
  }

  /** The direction as the source computes it: whether the counter starts at or below
      the bound. */
  function AsWrittenDir(c: Expr, b: string): Expr
  {
    Bin(LessOrEqual, c, Var(b))
  }

  /** The direction as the DO construct defines it: whether the step is positive. */
  function FixedDir(s: string): Expr
  {
    Bin(GreaterThan, Var(s), IntLit(0))
  }

  /** `env` with the counter holding `v`. */
  function At(env: Env, c: Expr, v: int): Env
  {
    x => if x == c then v else env(x)
  }

  /** The body runs an `n`-th time (counting from 0): the test has held at each of the
      first `n + 1` passes, the counter starting at `i0` and moving by `s` per pass, the
      copies of bound, step and direction keeping the values they have in `env`. */
  ghost predicate Enters(test: Expr, c: Expr, env: Env, i0: int, s: int, n: nat)
  {
    forall k: nat :: k <= n ==> Eval(test, At(env, c, i0 + k * s)) != 0
  }

  /** Division truncating toward zero, as Fortran's INT of a quotient. */
  function TruncDiv(a: int, d: int): int
    requires d != 0
  {
    var q := (if a < 0 then -a else a) / (if d < 0 then -d else d);
    if (a >= 0) == (d > 0) then q else -q
  }

  /** The iteration count MAX(INT((m2 - m1 + m3) / m3), 0) of ISO/IEC 1539-1:2010 section
      8.1.6.6.1, for start `i0`, bound `b` and step `s`. */
  function TripCount(i0: int, b: int, s: int): nat
    requires s != 0
  {
    var t := TruncDiv(b - i0 + s, s);
    if t > 0 then t else 0
  }

  /** What the stepped test reads, in a state where the counter holds `v`. */
  lemma StepTestReads(c: Expr, b: string, d: string, env: Env, v: int)
    requires c.Var? && c != Var(b) && c != Var(d)
    ensures Eval(StepTest(c, b, d), At(env, c, v)) != 0 <==>
      (if env(Var(d)) != 0 then v <= env(Var(b)) else v >= env(Var(b)))
  {
    var e := At(env, c, v);
    assert e(Var(d)) == env(Var(d)) && e(Var(b)) == env(Var(b)) && e(c) == v;
    assert Eval(Var(d), e) == env(Var(d));
    assert Eval(Bin(LessOrEqual, c, Var(b)), e) == B2I(v <= env(Var(b)));
    assert Eval(Bin(GreaterOrEqual, c, Var(b)), e) == B2I(v >= env(Var(b)));
  }

  lemma MulMono(k: nat, n: nat, s: int)
    requires k <= n && s > 0
    ensures k * s <= n * s
  {
  }

  /** For a positive divisor: `n * d <= a` exactly when `n` is at most the quotient. */
  lemma MulBelow(a: int, d: int, n: nat)
    requires d > 0 && a >= 0
    ensures n * d <= a <==> n <= a / d
  {
    var q, r := a / d, a % d;
    assert a == q * d + r && 0 <= r < d;
    if n <= q {
      MulMono(n, q, d);
    } else {
      MulMono(q + 1, n, d);
      assert (q + 1) * d == q * d + d;
    }
  }

  /** The quotient is the one `q` with `x == q * d + r` and `0 <= r < d`. */
  lemma DivUnique(x: int, d: int, q: int, r: int)
    requires d > 0 && x == q * d + r && 0 <= r < d
    ensures x / d == q
  {
    var q', r' := x / d, x % d;
    assert (q - q') * d == r' - r;
    if q > q' {
      MulMono(1, q - q', d);
    } else if q < q' {
      MulMono(1, q' - q, d);
    }
  }

  lemma DivStep(a: int, d: int)
    requires d > 0 && a >= 0
    ensures (a + d) / d == a / d + 1
  {
    var q, r := a / d, a % d;
    assert a + d == (q + 1) * d + r && 0 <= r < d;
    DivUnique(a + d, d, q + 1, r);
  }

  lemma SmallDiv(a: int, d: int)
    requires 0 <= a < d
    ensures a / d == 0
  {
  }

  /** Counting up: the `n`-th pass happens exactly when `n` is below the iteration count. */
  lemma UpCount(i0: int, b: int, s: int, n: nat)
    requires s > 0
    ensures i0 + n * s <= b <==> n < TripCount(i0, b, s)
  {
    var a := b - i0;
    if a >= 0 {
      MulBelow(a, s, n);
      DivStep(a, s);
      assert TruncDiv(a + s, s) == a / s + 1;
    } else {
      MulMono(0, n, s);
      if a + s >= 0 {
        SmallDiv(a + s, s);
      }
      assert TruncDiv(a + s, s) <= 0;
    }
  }

  lemma TruncDivNeg(a: int, d: int)
    requires d != 0
    ensures TruncDiv(a, d) == TruncDiv(-a, -d)
  {
  }

  /** A pass is entered exactly when the test holds at that pass, once the test is
      monotone in the pass number. */
  lemma {:induction false} EntersUp(c: Expr, b: string, d: string, env: Env, i0: int, s: int, n: nat)
    requires c.Var? && c != Var(b) && c != Var(d) && s > 0 && env(Var(d)) != 0
    ensures Enters(StepTest(c, b, d), c, env, i0, s, n) <==> i0 + n * s <= env(Var(b))
  {
    if i0 + n * s <= env(Var(b)) {
      forall k: nat | k <= n
        ensures Eval(StepTest(c, b, d), At(env, c, i0 + k * s)) != 0
      {
        MulMono(k, n, s);
        StepTestReads(c, b, d, env, i0 + k * s);
      }
    } else {
      StepTestReads(c, b, d, env, i0 + n * s);
    }
  }

  lemma {:induction false} EntersDown(c: Expr, b: string, d: string, env: Env, i0: int, s: int, n: nat)
    requires c.Var? && c != Var(b) && c != Var(d) && s < 0 && env(Var(d)) == 0
    ensures Enters(StepTest(c, b, d), c, env, i0, s, n) <==> i0 + n * s >= env(Var(b))
  {
    if i0 + n * s >= env(Var(b)) {
      forall k: nat | k <= n
        ensures Eval(StepTest(c, b, d), At(env, c, i0 + k * s)) != 0
      {
        MulMono(k, n, -s);
        assert k * (-s) == -(k * s) && n * (-s) == -(n * s);
        StepTestReads(c, b, d, env, i0 + k * s);
      }
    } else {
      StepTestReads(c, b, d, env, i0 + n * s);
    }
  }

  /** With the direction taken from the sign of the step, the loop with a step runs
      exactly the iteration count of the DO construct, in both directions. */
  lemma {:induction false} FixedTripCount(c: Expr, b: string, d: string, s: string, env: Env, i0: int, n: nat)
    requires c.Var? && c != Var(b) && c != Var(d)
    requires env(Var(s)) != 0
    requires env(Var(d)) == Eval(FixedDir(s), env)
    ensures Enters(StepTest(c, b, d), c, env, i0, env(Var(s)), n) <==>
      n < TripCount(i0, env(Var(b)), env(Var(s)))
  {
    var st, bv := env(Var(s)), env(Var(b));
    if st > 0 {
      EntersUp(c, b, d, env, i0, st, n);
      UpCount(i0, bv, st, n);
    } else {
      EntersDown(c, b, d, env, i0, st, n);
      UpCount(-i0, -bv, -st, n);
      assert n * (-st) == -(n * st);
      TruncDivNeg(bv - i0 + st, st);
      assert -bv - -i0 + -st == -(bv - i0 + st);
    }
  }

  /** Without a step the loop runs the iteration count for a step of 1. */
  lemma {:induction false} PlainTripCount(c: Expr, b: string, env: Env, i0: int, n: nat)
    requires c.Var? && c != Var(b)
    ensures Enters(PlainTest(c, b), c, env, i0, 1, n) <==> n < TripCount(i0, env(Var(b)), 1)
  {
    UpCount(i0, env(Var(b)), 1, n);
    if i0 + n <= env(Var(b)) {
      forall k: nat | k <= n
        ensures Eval(PlainTest(c, b), At(env, c, i0 + k * 1)) != 0
      {
      }
    } else {
      assert Eval(PlainTest(c, b), At(env, c, i0 + n * 1)) == 0;
    }
  }

  /** As written, a positive step with a start past the bound (`do i = 5, 1, 1`) sets the
      direction to "down": the test `counter >= bound` then holds at every pass, so the
      loop never ends, where the DO construct runs no iteration at all. */
  lemma {:induction false} AsWrittenNeverEnds(c: Expr, b: string, d: string, s: string, env: Env, i0: int, n: nat)
    requires c.Var? && c != Var(b) && c != Var(d)
    requires env(Var(s)) > 0 && i0 > env(Var(b))
    requires env(Var(d)) == Eval(AsWrittenDir(c, b), At(env, c, i0))
    ensures Enters(StepTest(c, b, d), c, env, i0, env(Var(s)), n)
    ensures TripCount(i0, env(Var(b)), env(Var(s))) == 0
  {
    var st, bv := env(Var(s)), env(Var(b));
    forall k: nat | k <= n
      ensures Eval(StepTest(c, b, d), At(env, c, i0 + k * st)) != 0
    {
      assert k * st >= 0;
      StepTestReads(c, b, d, env, i0 + k * st);
    }
    UpCount(i0, bv, st, 0);
  }

  /** The loop with a step as written: its direction is whether the counter starts at or
      below the bound. When that agrees with the sign of the step the loop runs the
      iteration count of the DO construct; otherwise the test holds at every pass and the
      loop never ends (`do i = 5, 1, 1`, and `do i = 5, 5, -1`, which the DO construct runs
      once). */
  lemma {:induction false} AsWrittenTripCount(c: Expr, b: string, d: string, s: string, env: Env, i0: int, n: nat)
    requires c.Var? && c != Var(b) && c != Var(d)
    requires env(Var(s)) != 0
    requires env(Var(d)) == Eval(AsWrittenDir(c, b), At(env, c, i0))
    ensures (i0 <= env(Var(b))) == (env(Var(s)) > 0) ==>
      (Enters(StepTest(c, b, d), c, env, i0, env(Var(s)), n) <==> n < TripCount(i0, env(Var(b)), env(Var(s))))
    ensures (i0 <= env(Var(b))) != (env(Var(s)) > 0) ==> Enters(StepTest(c, b, d), c, env, i0, env(Var(s)), n)
  {
    var st, bv := env(Var(s)), env(Var(b));
    var e0 := At(env, c, i0);
    assert e0(c) == i0 && e0(Var(b)) == bv;
    assert env(Var(d)) == B2I(i0 <= bv);
    if (i0 <= bv) == (st > 0) {
      assert Eval(FixedDir(s), env) == B2I(st > 0);
      FixedTripCount(c, b, d, s, env, i0, n);
    } else if st > 0 {
      AsWrittenNeverEnds(c, b, d, s, env, i0, n);
    } else {
      forall k: nat | k <= n
        ensures Eval(StepTest(c, b, d), At(env, c, i0 + k * st)) != 0
      {
        assert k * st <= 0;
        StepTestReads(c, b, d, env, i0 + k * st);
      }
    }
  }
}
