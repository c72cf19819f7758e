/** The Montgomery ladder of TrustApp/src/curve25519.c over limb arrays that are
    overwritten in place. Ghost parameters carry the field elements the arrays
    stand for. */
module Curve25519 {
  import opened Bits
  import opened Field25519
  import opened Fe10
  import opened FeCodec

  /** An fe: tight limbs that stand for v. */
  ghost predicate FeOf(a: array<u32>, v: int)
    reads a
  {
    a.Length == 10 && Tight(a[..]) && Cong(Val(a[..]), v)
  }

  /** An fe_loose that stands for v. */
  ghost predicate LooseOf(a: array<u32>, v: int)
    reads a
  {
    a.Length == 10 && Loose(a[..]) && Cong(Val(a[..]), v)
  }

  method Store(out: array<u32>, l: seq<u32>)
    requires out.Length == |l|
    modifies out
    ensures out[..] == l
  {
    forall i | 0 <= i < |l| { out[i] := l[i]; }
  }

  lemma {:induction false} AddRepresents(f: seq<u32>, g: seq<u32>, x: int, y: int)
    requires Tight(f) && Tight(g) && Cong(Val(f), x) && Cong(Val(g), y)
    ensures Cong(Val(AddLimbs(f, g)), FAdd(x, y)) && Cong(Val(SubLimbs(f, g)), FSub(x, y))
  {
    hide AddLimbs;
    hide SubLimbs;
    hide Val;
    hide Bounded;
    CongReduce(x + y);
    CongReduce(x - y);
    CongAdd(Val(f), Val(g), x, y);
    hide Cong;
    CongTrans(Val(AddLimbs(f, g)), x + y, FAdd(x, y));
    CongTrans(Val(SubLimbs(f, g)), Val(f) - Val(g), x - y);
    CongTrans(Val(SubLimbs(f, g)), x - y, FSub(x, y));
  }

  lemma {:induction false} CongReduce(a: int)
    ensures Cong(a, a % P)
  {
  }

  lemma {:induction false} MulRepresents(f: seq<u32>, g: seq<u32>, x: int, y: int)
    requires Loose(f) && Loose(g) && Cong(Val(f), x) && Cong(Val(g), y)
    ensures Tight(MulLimbs(f, g)) && Cong(Val(MulLimbs(f, g)), FMul(x, y))
  {
    hide MulLimbs;
    hide Val;
    hide Cong;
    hide Bounded;
    hide FMul;
    MulCorrect(f, g);
    CongMul(Val(f), Val(g), x, y);
    FMulCong(x, y);
    CongTrans(Val(MulLimbs(f, g)), Val(f) * Val(g), x * y);
    CongTrans(Val(MulLimbs(f, g)), x * y, FMul(x, y));
  }

  lemma {:induction false} SqrRepresents(f: seq<u32>, x: int)
    requires Loose(f) && Cong(Val(f), x)
    ensures Tight(SqrLimbs(f)) && Cong(Val(SqrLimbs(f)), FMul(x, x))
  {
    hide SqrLimbs;
    hide Val;
    hide Cong;
    hide Bounded;
    hide FMul;
    SqrCorrect(f);
    CongMul(Val(f), Val(f), x, x);
    FMulCong(x, x);
    CongTrans(Val(SqrLimbs(f)), Val(f) * Val(f), x * x);
    CongTrans(Val(SqrLimbs(f)), x * x, FMul(x, x));
  }

  lemma {:induction false} Mul121666Represents(f: seq<u32>, x: int)
    requires Loose(f) && Cong(Val(f), x)
    ensures Tight(Mul121666Limbs(f)) && Cong(Val(Mul121666Limbs(f)), FMul(121666, x))
  {
    CongRefl(121666);
    hide Mul121666Limbs;
    hide Val;
    hide Cong;
    hide Bounded;
    hide FMul;
    Mul121666Correct(f);
    CongMul(121666, Val(f), 121666, x);
    FMulCong(121666, x);
    CongTrans(Val(Mul121666Limbs(f)), 121666 * Val(f), 121666 * x);
    CongTrans(Val(Mul121666Limbs(f)), 121666 * x, FMul(121666, x));
  }

  /** h = f + g; h may be f or g. */
  method FeAdd(h: array<u32>, f: array<u32>, g: array<u32>, ghost x: int, ghost y: int)
    requires h.Length == 10 && FeOf(f, x) && FeOf(g, y)
    modifies h
    ensures LooseOf(h, FAdd(x, y))
  {
    hide AddLimbs;
    hide SubLimbs;
    hide Val;
    hide Cong;
    hide Bounded;
    AddRepresents(f[..], g[..], x, y);
    Store(h, AddLimbs(f[..], g[..]));
  }

  /** h = f - g; h may be f or g. */
  method FeSub(h: array<u32>, f: array<u32>, g: array<u32>, ghost x: int, ghost y: int)
    requires h.Length == 10 && FeOf(f, x) && FeOf(g, y)
    modifies h
    ensures LooseOf(h, FSub(x, y))
  {
    hide AddLimbs;
    hide SubLimbs;
    hide Val;
    hide Cong;
    hide Bounded;
    AddRepresents(f[..], g[..], x, y);
    Store(h, SubLimbs(f[..], g[..]));
  }

  /** fe_mul_ttt, fe_mul_tlt and fe_mul_tll */
  method FeMul(h: array<u32>, f: array<u32>, g: array<u32>, ghost x: int, ghost y: int)
    requires h.Length == 10 && LooseOf(f, x) && LooseOf(g, y)
    modifies h
    ensures FeOf(h, FMul(x, y))
  {
    hide MulLimbs;
    hide Val;
    hide Cong;
    hide FMul;
    hide Bounded;
    MulRepresents(f[..], g[..], x, y);
    Store(h, MulLimbs(f[..], g[..]));
  }

  /** fe_sq_tl and fe_sq_tt */
  method FeSqr(h: array<u32>, f: array<u32>, ghost x: int)
    requires h.Length == 10 && LooseOf(f, x)
    modifies h
    ensures FeOf(h, FMul(x, x))
  {
    hide SqrLimbs;
    hide Val;
    hide Cong;
    hide FMul;
    hide Bounded;
    SqrRepresents(f[..], x);
    Store(h, SqrLimbs(f[..]));
  }

  method FeMul121666(h: array<u32>, f: array<u32>, ghost x: int)
    requires h.Length == 10 && LooseOf(f, x)
    modifies h
    ensures FeOf(h, FMul(121666, x))
  {
    hide Mul121666Limbs;
    hide Val;
    hide Cong;
    hide FMul;
    hide Bounded;
    Mul121666Represents(f[..], x);
    Store(h, Mul121666Limbs(f[..]));
  }

  lemma {:induction false} TightIsLoose(a: array<u32>, x: int)
    requires FeOf(a, x)
    ensures LooseOf(a, x)
  {
    hide Val;
  }

  lemma {:induction false} Rename(a: array<u32>, x: int, y: int)
    requires FeOf(a, x) && Cong(x, y)
    ensures FeOf(a, y)
  {
    hide Val;
    hide Bounded;
  }

  // ---------- inversion

  ghost function Scaled(e: nat, n: nat): nat { e * Pow2(n) }

  lemma {:induction false} ScaledDouble(e: nat, n: nat)
    ensures Scaled(e, n + 1) == Scaled(e, n) + Scaled(e, n) && Scaled(e, 0) == e
  {
    assert Pow2(n + 1) == 2 * Pow2(n);
    hide Pow2;
    assert e * (2 * Pow2(n)) == 2 * (e * Pow2(n));
    Pow2Zero();
  }

  lemma {:induction false} Pow2Zero()
    ensures Pow2(0) == 1
  {
  }

  /** Squares n times: one fe_sq_tt into h and a loop of n - 1 more in place. */
  method SquareTimes(h: array<u32>, f: array<u32>, n: nat, ghost x: int, ghost e: nat)
    requires h.Length == 10 && LooseOf(f, FPow(x, e)) && n >= 1
    modifies h
    ensures FeOf(h, FPow(x, Scaled(e, n)))
  {
    hide FPow;
    hide FeOf;
    hide Scaled;
    FeSqr(h, f, FPow(x, e));
    PowSquare(h, x, e);
    ScaledDouble(e, 0);
    for i := 1 to n
      invariant FeOf(h, FPow(x, Scaled(e, i)))
    {
      ghost var d := Scaled(e, i);
      TightIsLoose(h, FPow(x, d));
      FeSqr(h, h, FPow(x, d));
      PowSquare(h, x, d);
      ScaledDouble(e, i);
    }
  }

  lemma {:induction false} PowSquare(h: array<u32>, x: int, e: nat)
    requires FeOf(h, FMul(FPow(x, e), FPow(x, e)))
    ensures FeOf(h, FPow(x, e + e))
  {
    PowMul(h, x, e, e);
  }

  lemma {:induction false} PowMul(h: array<u32>, x: int, d: nat, e: nat)
    requires FeOf(h, FMul(FPow(x, d), FPow(x, e)))
    ensures FeOf(h, FPow(x, d + e))
  {
    hide FPow;
    hide FeOf;
    PowAdd(x, d, e);
    FMulCong(FPow(x, d), FPow(x, e));
    Rename(h, FMul(FPow(x, d), FPow(x, e)), FPow(x, d + e));
  }

  /** h = f * g on powers of one base. */
  method MulPowers(h: array<u32>, f: array<u32>, g: array<u32>, ghost x: int, ghost d: nat, ghost e: nat)
    requires h.Length == 10 && LooseOf(f, FPow(x, d)) && FeOf(g, FPow(x, e))
    modifies h
    ensures FeOf(h, FPow(x, d + e))
  {
    hide FPow;
    hide FeOf;
    hide LooseOf;
    TightIsLoose(g, FPow(x, e));
    FeMul(h, f, g, FPow(x, d), FPow(x, e));
    PowMul(h, x, d, e);
  }

  /** The exponent with n one bits. */
  ghost function Ones(n: nat): nat { Pow2(n) - 1 }

  lemma {:induction false} OnesJoin(a: nat, b: nat)
    ensures Scaled(Ones(a), b) + Ones(b) == Ones(a + b)
  {
    Pow2Add(a, b);
    hide Pow2;
    assert (Pow2(a) - 1) * Pow2(b) == Pow2(a) * Pow2(b) - Pow2(b);
  }

  lemma {:induction false} InverseExponent()
    ensures Scaled(Ones(250), 5) + 11 == P - 2
  {
    OnesJoin(250, 5);
    PValue();
    SmallExponents();
    hide Scaled;
    hide Pow2;
  }

  lemma {:induction false} SmallExponents()
    ensures Scaled(1, 1) == 2 && Scaled(2, 2) == 8 && Scaled(11, 1) == 22 && Ones(5) == 31
  {
  }

  /** h = f^(2^n) * g, going from m ones to m + n ones in the exponent; t holds the power. */
  method StepUp(h: array<u32>, t: array<u32>, f: array<u32>, g: array<u32>, n: nat, ghost x: int, ghost m: nat)
    requires h.Length == 10 && t.Length == 10 && t != g && n >= 1
    requires FeOf(f, FPow(x, Ones(m))) && FeOf(g, FPow(x, Ones(n)))
    modifies h, t
    ensures FeOf(h, FPow(x, Ones(m + n)))
  {
    hide FPow;
    hide FeOf;
    hide LooseOf;
    hide Ones;
    hide Scaled;
    TightIsLoose(f, FPow(x, Ones(m)));
    SquareTimes(t, f, n, x, Ones(m));
    TightIsLoose(t, FPow(x, Scaled(Ones(m), n)));
    MulPowers(h, t, g, x, Scaled(Ones(m), n), Ones(n));
    OnesJoin(m, n);
  }

  /** The first lines of fe_loose_invert: the exponents 11 and 31. */
  method InvertStart(t0: array<u32>, t1: array<u32>, t2: array<u32>, z: array<u32>, ghost x: int)
    requires t0.Length == 10 && t1.Length == 10 && t2.Length == 10 && t0 != t1 && t0 != t2 && t1 != t2
    requires z != t0 && z != t1 && LooseOf(z, x)
    modifies t0, t1, t2
    ensures FeOf(t0, FPow(x, 11)) && FeOf(t1, FPow(x, Ones(5)))
  {
    PowOne(z, x);
    hide FPow;
    hide FeOf;
    hide LooseOf;
    SmallExponents();
    hide Ones;
    hide Scaled;
    SquareTimes(t0, z, 1, x, 1);
    TightIsLoose(t0, FPow(x, 2));
    SquareTimes(t1, t0, 2, x, 2);
    MulPowers(t1, z, t1, x, 1, 8);
    MulPowers(t0, t0, t1, x, 2, 9);
    TightIsLoose(t0, FPow(x, 11));
    SquareTimes(t2, t0, 1, x, 11);
    TightIsLoose(t1, FPow(x, 9));
    MulPowers(t1, t1, t2, x, 9, 22);
  }

  lemma {:induction false} PowOne(z: array<u32>, x: int)
    requires LooseOf(z, x)
    ensures LooseOf(z, FPow(x, 1))
  {
    hide Val;
    hide Bounded;
    assert FPow(x, 1) == FMul(x, FPow(x, 0)) == FMul(x, 1);
  }

  /** fe_loose_invert: an addition chain for the exponent p - 2. */
  method FeLooseInvert(out: array<u32>, z: array<u32>, ghost x: int)
    requires out.Length == 10 && LooseOf(z, x)
    modifies out
    ensures FeOf(out, FPow(x, P - 2))
  {
    hide *;
    var t0, t1, t2, t3 := new u32[10], new u32[10], new u32[10], new u32[10];
    InvertStart(t0, t1, t2, z, x);
    StepUp(t1, t2, t1, t1, 5, x, 5);
    StepUp(t2, t2, t1, t1, 10, x, 10);
    StepUp(t2, t3, t2, t2, 20, x, 20);
    StepUp(t1, t2, t2, t1, 10, x, 40);
    StepUp(t2, t2, t1, t1, 50, x, 50);
    StepUp(t2, t3, t2, t2, 100, x, 100);
    StepUp(t1, t2, t2, t1, 50, x, 200);
    TightIsLoose(t1, FPow(x, Ones(250)));
    SquareTimes(t1, t1, 5, x, Ones(250));
    TightIsLoose(t1, FPow(x, Scaled(Ones(250), 5)));
    MulPowers(out, t1, t0, x, Scaled(Ones(250), 5), 11);
    InverseExponent();
  }

  method FeInvert(out: array<u32>, z: array<u32>, ghost x: int)
    requires out.Length == 10 && FeOf(z, x)
    modifies out
    ensures FeOf(out, FPow(x, P - 2))
  {
    var l := new u32[10];
    Store(l, z[..]);
    assert LooseOf(l, x) by { TightIsLoose(z, x); }
    hide *;
    FeLooseInvert(out, l, x);
  }

  // ---------- conditional swap

  /** The masked exclusive-or exchange of one pair of limbs. */
  function Exchange(a: u32, b: u32, mask: u32): (r: (u32, u32))
    requires mask == 0 || mask == 0xffff_ffff
    ensures r == if mask == 0 then (a, b) else (b, a)
  {
    Pow2Word();
    XorBound(a as nat, b as nat, 32);
    AndOnes(Xor(a as nat, b as nat));
    AndCommutes(Xor(a as nat, b as nat), mask as nat);
    XorZero(a as nat);
    XorZero(b as nat);
    XorCancels(a as nat, b as nat);
    XorCommutes(a as nat, b as nat);
    XorCancels(b as nat, a as nat);
    var x := And(Xor(a as nat, b as nat), mask as nat);
    (Xor(a as nat, x) as u32, Xor(b as nat, x) as u32)
  }

  /** fe_cswap: exchanges the two arrays in place when b is 1. */
  method FeCswap(f: array<u32>, g: array<u32>, b: u32)
    requires f.Length == 10 && g.Length == 10 && f != g && b <= 1
    modifies f, g
    ensures f[..] == (if b == 1 then old(g[..]) else old(f[..]))
    ensures g[..] == (if b == 1 then old(f[..]) else old(g[..]))
  {
    hide Exchange;
    var mask: u32 := if b == 1 then 0xffff_ffff else 0;
    for i := 0 to 10
      invariant forall k | 0 <= k < i :: f[k] == (if b == 1 then old(g[k]) else old(f[k]))
      invariant forall k | 0 <= k < i :: g[k] == (if b == 1 then old(f[k]) else old(g[k]))
      invariant forall k | i <= k < 10 :: f[k] == old(f[k]) && g[k] == old(g[k])
    {
      var r := Exchange(f[i], g[i], mask);
      f[i] := r.0;
      g[i] := r.1;
    }
  }

  // ---------- ladder

  /** The four arrays stand for the two points. */
  ghost predicate PointsOf(x2: array<u32>, z2: array<u32>, x3: array<u32>, z3: array<u32>, s: Points)
    reads x2, z2, x3, z3
  {
    && x2.Length == 10 && z2.Length == 10 && x3.Length == 10 && z3.Length == 10
    && FeOf(x2, s.x2) && FeOf(z2, s.z2) && FeOf(x3, s.x3) && FeOf(z3, s.z3)
  }

  method SwapPoints(x2: array<u32>, z2: array<u32>, x3: array<u32>, z3: array<u32>, swap: u32, ghost s: Points)
    requires PointsOf(x2, z2, x3, z3, s) && swap <= 1
    requires x2 != z2 && x2 != x3 && x2 != z3 && z2 != x3 && z2 != z3 && x3 != z3
    modifies x2, z2, x3, z3
    ensures PointsOf(x2, z2, x3, z3, CondSwap(swap == 1, s))
  {
    hide Val;
    hide Bounded;
    hide Cong;
    FeCswap(x2, x3, swap);
    FeCswap(z2, z3, swap);
  }

  /** The constant 121666 of the source against the RFC's 121665. */
  lemma {:induction false} A24Form(aa: int, bb: int)
    ensures var e := FSub(aa, bb);
            Cong(FAdd(bb, FMul(121666, e)), FAdd(aa, FMul(A24, e)))
  {
    var e := FSub(aa, bb);
    CongMultiple(bb + 121666 * e, bb + FMul(121666, e), 121666 * e / P);
    CongMultiple(aa + A24 * e, aa + FMul(A24, e), A24 * e / P);
    CongMultiple(aa - bb, e, (aa - bb) / P);
    CongMultiple(aa + A24 * e, bb + 121666 * e, (aa - bb) / P);
  }

  /** First half of the loop body: the products DA, CB and the squares AA, BB of the RFC. */
  method StepProducts(x2: array<u32>, z2: array<u32>, x3: array<u32>, z3: array<u32>, tmp0: array<u32>,
                      tmp1: array<u32>,
                      ghost s: Points, ghost a: int, ghost b: int, ghost c: int, ghost d: int)
    requires PointsOf(x2, z2, x3, z3, s) && tmp0.Length == 10 && tmp1.Length == 10
    requires z2 != z3 && tmp0 != z2 && tmp0 != z3 && tmp1 != z2 && tmp1 != z3 && tmp0 != tmp1
    requires a == FAdd(s.x2, s.z2) && b == FSub(s.x2, s.z2) && c == FAdd(s.x3, s.z3) && d == FSub(s.x3, s.z3)
    modifies z2, z3, tmp0, tmp1
    ensures FeOf(z3, FMul(d, a)) && FeOf(z2, FMul(c, b)) && FeOf(tmp0, FMul(b, b)) && FeOf(tmp1, FMul(a, a))
  {
    hide FeOf;
    hide LooseOf;
    hide FAdd;
    hide FSub;
    hide FMul;
    var tmp0l, tmp1l, x2l, z2l := new u32[10], new u32[10], new u32[10], new u32[10];
    FeSub(tmp0l, x3, z3, s.x3, s.z3);
    FeSub(tmp1l, x2, z2, s.x2, s.z2);
    FeAdd(x2l, x2, z2, s.x2, s.z2);
    FeAdd(z2l, x3, z3, s.x3, s.z3);
    FeMul(z3, tmp0l, x2l, d, a);
    FeMul(z2, z2l, tmp1l, c, b);
    FeSqr(tmp0, tmp1l, b);
    FeSqr(tmp1, x2l, a);
  }

  /** The squares of the sum and the difference, the product, and 121666 times E. */
  method CombineSquares(x2: array<u32>, z2: array<u32>, x3: array<u32>, z3: array<u32>,
                        tmp0: array<u32>, tmp1: array<u32>, tmp1l: array<u32>,
                        ghost da: int, ghost cb: int, ghost aa: int, ghost bb: int)
    requires x2.Length == 10 && z2.Length == 10 && x3.Length == 10 && z3.Length == 10 && tmp1l.Length == 10
    requires FeOf(z3, da) && FeOf(z2, cb) && FeOf(tmp0, bb) && FeOf(tmp1, aa)
    requires x2 != z2 && x2 != x3 && x2 != z3 && z2 != x3 && z2 != z3 && x3 != z3
    requires tmp0 != x2 && tmp1 != x2 && tmp1l != x2 && tmp1l != z2 && tmp1l != x3 && tmp1l != z3 && tmp1l != tmp0
    requires tmp1l != tmp1
    modifies x2, z2, x3, z3, tmp1l
    ensures var e, sum, diff := FSub(aa, bb), FAdd(da, cb), FSub(da, cb);
      && FeOf(x2, FMul(aa, bb)) && FeOf(z2, FMul(diff, diff)) && FeOf(x3, FMul(sum, sum))
      && FeOf(z3, FMul(121666, e)) && LooseOf(tmp1l, e)
  {
    hide FeOf;
    hide LooseOf;
    hide FAdd;
    hide FSub;
    hide FMul;
    var z2l, x3l := new u32[10], new u32[10];
    FeAdd(x3l, z3, z2, da, cb);
    FeSub(z2l, z3, z2, da, cb);
    TightIsLoose(tmp1, aa);
    TightIsLoose(tmp0, bb);
    FeMul(x2, tmp1, tmp0, aa, bb);
    FeSub(tmp1l, tmp1, tmp0, aa, bb);
    FeSqr(z2, z2l, FSub(da, cb));
    FeMul121666(z3, tmp1l, FSub(aa, bb));
    FeSqr(x3, x3l, FAdd(da, cb));
  }

  /** Second half: the next two points from those products. */
  method StepCombine(x1: array<u32>, x2: array<u32>, z2: array<u32>, x3: array<u32>, z3: array<u32>,
                     tmp0: array<u32>, tmp1: array<u32>,
                     ghost u: int, ghost da: int, ghost cb: int, ghost aa: int, ghost bb: int)
    requires x2.Length == 10 && z2.Length == 10 && x3.Length == 10 && z3.Length == 10
    requires FeOf(x1, u) && FeOf(z3, da) && FeOf(z2, cb) && FeOf(tmp0, bb) && FeOf(tmp1, aa)
    requires x1 != x2 && x1 != z2 && x1 != x3 && x1 != z3
    requires x2 != z2 && x2 != x3 && x2 != z3 && z2 != x3 && z2 != z3 && x3 != z3
    requires tmp0 != x2 && tmp0 != z2 && tmp0 != x3 && tmp0 != z3 && tmp1 != x2
    modifies x2, z2, x3, z3
    ensures var e, sum, diff := FSub(aa, bb), FAdd(da, cb), FSub(da, cb);
            PointsOf(x2, z2, x3, z3, Points(FMul(aa, bb), FMul(e, FAdd(aa, FMul(A24, e))),
                                            FMul(sum, sum), FMul(u, FMul(diff, diff))))
  {
    hide FeOf;
    hide LooseOf;
    hide FAdd;
    hide FSub;
    hide FMul;
    ghost var e, diff := FSub(aa, bb), FSub(da, cb);
    var tmp0l, tmp1l := new u32[10], new u32[10];
    CombineSquares(x2, z2, x3, z3, tmp0, tmp1, tmp1l, da, cb, aa, bb);
    FeAdd(tmp0l, tmp0, z3, bb, FMul(121666, e));
    TightIsLoose(x1, u);
    TightIsLoose(z2, FMul(diff, diff));
    FeMul(z3, x1, z2, u, FMul(diff, diff));
    A24Form(aa, bb);
    RenameLoose(tmp0l, FAdd(bb, FMul(121666, e)), FAdd(aa, FMul(A24, e)));
    FeMul(z2, tmp1l, tmp0l, e, FAdd(aa, FMul(A24, e)));
  }

  /** The loop body after the swap. */
  method LadderStepInPlace(x1: array<u32>, x2: array<u32>, z2: array<u32>, x3: array<u32>, z3: array<u32>,
                           ghost u: int, ghost s: Points)
    requires FeOf(x1, u) && PointsOf(x2, z2, x3, z3, s)
    requires x1 != x2 && x1 != z2 && x1 != x3 && x1 != z3
    requires x2 != z2 && x2 != x3 && x2 != z3 && z2 != x3 && z2 != z3 && x3 != z3
    modifies x2, z2, x3, z3
    ensures PointsOf(x2, z2, x3, z3, LadderStep(u, s))
  {
    hide FeOf;
    hide FAdd;
    hide FSub;
    hide FMul;
    var tmp0, tmp1 := new u32[10], new u32[10];
    ghost var a, b, c, d := FAdd(s.x2, s.z2), FSub(s.x2, s.z2), FAdd(s.x3, s.z3), FSub(s.x3, s.z3);
    StepProducts(x2, z2, x3, z3, tmp0, tmp1, s, a, b, c, d);
    StepCombine(x1, x2, z2, x3, z3, tmp0, tmp1, u, FMul(d, a), FMul(c, b), FMul(a, a), FMul(b, b));
  }

  lemma {:induction false} RenameLoose(a: array<u32>, x: int, y: int)
    requires LooseOf(a, x) && Cong(x, y)
    ensures LooseOf(a, y)
  {
    hide Val;
    hide Bounded;
  }

  // ---------- the whole function

  /** normalize_secret */
  method NormalizeSecret(secret: array<u8>)
    requires secret.Length == 32
    modifies secret
    ensures secret[..] == Clamp(old(secret[..]))
  {
    hide Clamp;
    AndLe(secret[0] as nat, 248);
    AndLe(secret[31] as nat, 127);
    OrBound(And(secret[31] as nat, 127), 64, 7);
    ghost var k := secret[..];
    secret[0] := And(secret[0] as nat, 248) as u8;
    secret[31] := And(secret[31] as nat, 127) as u8;
    secret[31] := Or(secret[31] as nat, 64) as u8;
    assert secret[..] == k[0 := secret[0]][31 := secret[31]];
    ClampIs(k);
  }

  lemma {:induction false} ClampIs(k: seq<u8>)
    requires |k| == 32
    ensures And(k[0] as nat, 248) < 256 && Or(And(k[31] as nat, 127), 64) < 256
    ensures Clamp(k) == k[0 := And(k[0] as nat, 248) as u8][31 := Or(And(k[31] as nat, 127), 64) as u8]
  {
    AndLe(k[0] as nat, 248);
    AndLe(k[31] as nat, 127);
    OrBound(And(k[31] as nat, 127), 64, 7);
  }

  /** The scalar bit the loop reads: 1 & (e[pos / 8] >> (pos & 7)). */
  method ScalarBit(e: array<u8>, pos: nat) returns (b: u32)
    requires e.Length == 32 && pos < 255
    ensures b == if Bit(DecodeLittleEndian(e[..]), pos) then 1 else 0
  {
    hide DecodeLittleEndian;
    DecodeBit(e[..], pos);
    BitIsShift(e[pos / 8] as nat, pos % 8);
    b := (e[pos / 8] as nat / Pow2(pos % 8) % 2) as u32;
  }

  /** fe_0 and fe_1 */
  method SetSmall(h: array<u32>, v: u32)
    requires h.Length == 10 && v <= 1
    modifies h
    ensures FeOf(h, v as int)
  {
    Store(h, [v, 0, 0, 0, 0, 0, 0, 0, 0, 0]);
  }

  /** The loop over the scalar bits, with the pending swap flag. */
  method Ladder(x1: array<u32>, x2: array<u32>, z2: array<u32>, x3: array<u32>, z3: array<u32>, e: array<u8>,
                ghost u: int)
    requires e.Length == 32 && FeOf(x1, u) && PointsOf(x2, z2, x3, z3, Points(1, 0, u, 1))
    requires x1 != x2 && x1 != z2 && x1 != x3 && x1 != z3
    requires x2 != z2 && x2 != x3 && x2 != z3 && z2 != x3 && z2 != z3 && x3 != z3
    modifies x2, z2, x3, z3
    ensures var (s, swap) := RfcLadder(u, DecodeLittleEndian(e[..]), 0);
            PointsOf(x2, z2, x3, z3, CondSwap(swap, s))
  {
    hide FeOf;
    hide LadderStep;
    hide DecodeLittleEndian;
    hide Bit;
    ghost var k := DecodeLittleEndian(e[..]);
    var swap: u32 := 0;
    var pos := 254;
    while pos >= 0
      invariant -1 <= pos <= 254 && swap <= 1
      invariant FeOf(x1, u) && DecodeLittleEndian(e[..]) == k
      invariant RfcLadder(u, k, (pos + 1) as nat).1 == (swap == 1)
      invariant PointsOf(x2, z2, x3, z3, RfcLadder(u, k, (pos + 1) as nat).0)
      decreases pos
    {
      ghost var s := RfcLadder(u, k, pos + 1).0;
      var b := ScalarBit(e, pos);
      swap := if swap == b then 0 else 1;
      SwapPoints(x2, z2, x3, z3, swap, s);
      LadderStepInPlace(x1, x2, z2, x3, z3, u, CondSwap(swap == 1, s));
      swap := b;
      pos := pos - 1;
    }
    SwapPoints(x2, z2, x3, z3, swap, RfcLadder(u, k, 0).0);
  }

  /** The end of curve25519_generic: x2 / z2 as bytes. */
  method Finish(out: array<u8>, x2: array<u32>, z2: array<u32>, ghost x: int, ghost z: int)
    requires out.Length == 32 && x2 != z2 && FeOf(x2, x) && FeOf(z2, z)
    modifies out, x2, z2
    ensures out[..] == EncodeLittleEndian(FMul(x, FPow(z, P - 2)), 32)
  {
    hide FPow;
    hide Cong;
    hide Val;
    hide Bounded;
    hide ToBytes;
    hide Freeze;
    hide EncodeLittleEndian;
    FeInvert(z2, z2, z);
    TightIsLoose(x2, x);
    TightIsLoose(z2, FPow(z, P - 2));
    FeMul(x2, x2, z2, x, FPow(z, P - 2));
    EncodeCorrect(x2[..]);
    ReducedIs(x2, x, FPow(z, P - 2));
    var bytes := ToBytes(Freeze(x2[..]));
    forall i | 0 <= i < 32 { out[i] := bytes[i]; }
    assert out[..] == bytes;
  }

  lemma {:induction false} ReducedIs(h: array<u32>, x: int, y: int)
    requires FeOf(h, FMul(x, y))
    ensures Val(h[..]) % P == FMul(x, y)
  {
    hide Val;
    hide Bounded;
  }

  /** fe_frombytes and fe_copy */
  method LoadPoint(x1: array<u32>, x3: array<u32>, point: array<u8>)
    requires x1.Length == 10 && x3.Length == 10 && point.Length == 32 && x1 != x3
    modifies x1, x3
    ensures FeOf(x1, DecodeCoordinate(point[..])) && FeOf(x3, DecodeCoordinate(point[..]))
  {
    hide Val;
    hide Bounded;
    hide FromBytes;
    hide DecodeCoordinate;
    FromBytesCorrect(point[..]);
    Store(x1, FromBytes(point[..]));
    Store(x3, x1[..]);
  }

  method ClampedCopy(scalar: array<u8>) returns (e: array<u8>)
    requires scalar.Length == 32
    ensures fresh(e) && e.Length == 32 && e[..] == Clamp(scalar[..])
  {
    hide Clamp;
    e := new u8[32];
    forall i | 0 <= i < 32 { e[i] := scalar[i]; }
    assert e[..] == scalar[..];
    NormalizeSecret(e);
  }

  method LadderFromBytes(x2: array<u32>, z2: array<u32>, e: array<u8>, point: array<u8>) returns (ghost r: Points)
    requires x2.Length == 10 && z2.Length == 10 && x2 != z2 && e.Length == 32 && point.Length == 32
    modifies x2, z2
    ensures FeOf(x2, r.x2) && FeOf(z2, r.z2)
    ensures var (s, swap) := RfcLadder(DecodeCoordinate(point[..]), DecodeLittleEndian(e[..]), 0);
            r == CondSwap(swap, s)
  {
    hide RfcLadder;
    hide FeOf;
    hide DecodeLittleEndian;
    hide DecodeCoordinate;
    ghost var q, k := point[..], e[..];
    ghost var u := DecodeCoordinate(q);
    var x1, x3, z3 := new u32[10], new u32[10], new u32[10];
    LoadPoint(x1, x3, point);
    assert point[..] == q;
    SetSmall(x2, 1);
    SetSmall(z2, 0);
    SetSmall(z3, 1);
    assert FeOf(x1, u) && FeOf(x3, u);
    assert e[..] == k;
    Ladder(x1, x2, z2, x3, z3, e, u);
    ghost var (s, swap) := RfcLadder(u, DecodeLittleEndian(e[..]), 0);
    r := CondSwap(swap, s);
  }

  /** curve25519_generic computes exactly X25519, whatever the scalar and the point;
      out may be either input. */
  method Curve25519Generic(out: array<u8>, scalar: array<u8>, point: array<u8>)
    requires out.Length == 32 && scalar.Length == 32 && point.Length == 32
    modifies out
    ensures out[..] == X25519(old(scalar[..]), old(point[..]))
  {
    hide RfcLadder;
    hide FPow;
    hide FMul;
    hide FeOf;
    hide DecodeLittleEndian;
    hide EncodeLittleEndian;
    hide DecodeCoordinate;
    hide Clamp;
    var e := ClampedCopy(scalar);
    var x2, z2 := new u32[10], new u32[10];
    ghost var r := LadderFromBytes(x2, z2, e, point);
    Finish(out, x2, z2, r.x2, r.z2);
  }
}
