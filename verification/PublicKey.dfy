/** wg_generate_public_key of the embeddable library: the ladder, the inverse and
    the packing over sixteen-limb arrays. */
module PublicKey {
  import opened Bits
  import opened Field25519
  import opened Fe16
  import Curve25519

  /** A reduced limb array that stands for v. */
  ghost predicate Holds(a: array<i64>, v: int)
    reads a
  {
    a.Length == 16 && Reduced(a[..]) && Cong(Val16(a[..]), v)
  }

  /** A sum or difference that stands for v. */
  ghost predicate HoldsLoose(a: array<i64>, v: int)
    reads a
  {
    a.Length == 16 && Loose16(a[..]) && Cong(Val16(a[..]), v)
  }

  lemma {:induction false} Loosen(a: array<i64>, v: int)
    requires Holds(a, v)
    ensures HoldsLoose(a, v)
  {
    hide Val16;
    hide Cong;
  }

  lemma {:induction false} Rename(a: array<i64>, v: int, w: int)
    requires Holds(a, v) && Cong(v, w)
    ensures Holds(a, w)
  {
    hide Val16;
    hide Cong;
    CongTrans(Val16(a[..]), v, w);
  }

  lemma {:induction false} RenameLoose(a: array<i64>, v: int, w: int)
    requires HoldsLoose(a, v) && Cong(v, w)
    ensures HoldsLoose(a, w)
  {
    hide Val16;
    hide Cong;
    CongTrans(Val16(a[..]), v, w);
  }

  // ---------- field operations

  /** add: o may be a or b. */
  method Add(o: array<i64>, a: array<i64>, b: array<i64>, ghost x: int, ghost y: int)
    requires o.Length == 16 && Holds(a, x) && Holds(b, y)
    modifies o
    ensures HoldsLoose(o, FAdd(x, y))
  {
    hide Val16;
    hide Cong;
    hide FAdd;
    ghost var p, q := a[..], b[..];
    for i := 0 to 16
      invariant forall k | i <= k < 16 :: a[k] == p[k] && b[k] == q[k]
      invariant forall k | 0 <= k < i :: o[k] as int == p[k] as int + 1 * q[k] as int
    {
      o[i] := a[i] + b[i];
    }
    ValLinear(o[..], p, 1, q);
    SumCong(Val16(p), Val16(q), x, y);
  }

  /** subtract: o may be a or b. */
  method Subtract(o: array<i64>, a: array<i64>, b: array<i64>, ghost x: int, ghost y: int)
    requires o.Length == 16 && Holds(a, x) && Holds(b, y)
    modifies o
    ensures HoldsLoose(o, FSub(x, y))
  {
    hide Val16;
    hide Cong;
    hide FSub;
    ghost var p, q := a[..], b[..];
    for i := 0 to 16
      invariant forall k | i <= k < 16 :: a[k] == p[k] && b[k] == q[k]
      invariant forall k | 0 <= k < i :: o[k] as int == p[k] as int + (-1) * q[k] as int
    {
      o[i] := a[i] - b[i];
    }
    ValLinear(o[..], p, -1, q);
    SumCong(Val16(p), Val16(q), x, y);
  }

  lemma {:induction false} SumCong(a: int, b: int, x: int, y: int)
    requires Cong(a, x) && Cong(b, y)
    ensures Cong(a + 1 * b, FAdd(x, y)) && Cong(a + (-1) * b, FSub(x, y))
  {
    CongAdd(a, b, x, y);
  }

  /** multmod: o may be a or b. */
  method MultMod(o: array<i64>, a: array<i64>, b: array<i64>, ghost x: int, ghost y: int)
    requires o.Length == 16 && HoldsLoose(a, x) && HoldsLoose(b, y)
    modifies o
    ensures Holds(o, FMul(x, y))
  {
    hide Val16;
    hide Cong;
    hide FMul;
    hide Reduced;
    CongMul(Val16(a[..]), Val16(b[..]), x, y);
    FMulCong(x, y);
    ghost var v := Val16(a[..]) * Val16(b[..]);
    MultModLimbs(o, a, b);
    CongTrans(Val16(o[..]), v, x * y);
    CongTrans(Val16(o[..]), x * y, FMul(x, y));
  }

  // ---------- conditional swap

  /** The 64-bit word of a limb. */
  function Word(x: i64): (u: nat)
    ensures u < 0x1_0000_0000_0000_0000
  {
    if x < 0 then (x as int + 0x1_0000_0000_0000_0000) as nat else x as nat
  }

  function Signed(u: nat): (x: i64)
    requires u < 0x1_0000_0000_0000_0000
    ensures Word(x) == u
  {
    if u >= 0x8000_0000_0000_0000 then (u as int - 0x1_0000_0000_0000_0000) as i64 else u as i64
  }

  lemma {:induction false} Pow2Word()
    ensures Pow2(64) == 0x1_0000_0000_0000_0000
  {
    Pow2Square(4, 0x10);
    Pow2Square(8, 0x100);
    Pow2Square(16, 0x1_0000);
    Pow2Square(32, 0x1_0000_0000);
  }

  lemma {:induction false} MaskedXor(u: nat, v: nat, c: nat)
    requires u < 0x1_0000_0000_0000_0000 && v < 0x1_0000_0000_0000_0000
    requires c == 0 || c == 0xffff_ffff_ffff_ffff
    ensures Xor(u, And(c, Xor(u, v))) == if c == 0 then u else v
    ensures Xor(v, And(c, Xor(u, v))) == if c == 0 then v else u
  {
    hide Xor;
    hide And;
    hide Pow2;
    Pow2Word();
    XorBound(u, v, 64);
    AndCommutes(c, Xor(u, v));
    AndMask(Xor(u, v), 64);
    AndZero(Xor(u, v));
    XorZero(u);
    XorZero(v);
    XorCancels(u, v);
    XorCommutes(u, v);
    XorCancels(v, u);
  }

  /** One limb pair of cswap; c is all ones or zero. */
  function Exchange(p: i64, q: i64, c: i64): (r: (i64, i64))
    requires c == 0 || c == -1
  {
    MaskedXor(Word(p), Word(q), Word(c));
    var t := And(Word(c), Xor(Word(p), Word(q)));
    (Signed(Xor(Word(p), t)), Signed(Xor(Word(q), t)))
  }

  lemma {:induction false} ExchangeSwaps(p: i64, q: i64, c: i64)
    requires c == 0 || c == -1
    ensures Exchange(p, q, c) == if c == 0 then (p, q) else (q, p)
  {
    hide Xor;
    hide And;
    MaskedXor(Word(p), Word(q), Word(c));
  }

  method Cswap(p: array<i64>, q: array<i64>, b: i64)
    requires p.Length == 16 && q.Length == 16 && p != q && 0 <= b <= 1
    modifies p, q
    ensures p[..] == (if b == 1 then old(q[..]) else old(p[..]))
    ensures q[..] == (if b == 1 then old(p[..]) else old(q[..]))
  {
    hide Exchange;
    var c := -1 - (b - 1);
    for i := 0 to 16
      invariant forall k | 0 <= k < i :: p[k] == (if b == 1 then old(q[k]) else old(p[k]))
      invariant forall k | 0 <= k < i :: q[k] == (if b == 1 then old(p[k]) else old(q[k]))
      invariant forall k | i <= k < 16 :: p[k] == old(p[k]) && q[k] == old(q[k])
    {
      ExchangeSwaps(p[i], q[i], c);
      var r := Exchange(p[i], q[i], c);
      p[i] := r.0;
      q[i] := r.1;
    }
  }

  // ---------- inverse

  /** The exponent reached once the loop counter of invert has gone down to k. */
  ghost function InverseChain(k: int): nat
    requires 0 <= k <= 254
    decreases 254 - k
  {
    if k == 254 then 1 else 2 * InverseChain(k + 1) + if k == 2 || k == 4 then 0 else 1
  }

  lemma {:induction false} ChainStart()
    ensures InverseChain(254) == 1
  {
  }

  lemma {:induction false} ChainStep(k: int)
    requires 0 <= k < 254
    ensures InverseChain(k) == InverseChain(k + 1) + InverseChain(k + 1) + if k == 2 || k == 4 then 0 else 1
  {
  }

  lemma {:induction false} ChainOnes(k: int)
    requires 5 <= k <= 254
    ensures InverseChain(k) == Pow2(255 - k) - 1
    decreases 254 - k
  {
    if k < 254 {
      ChainOnes(k + 1);
      assert Pow2(255 - k) == 2 * Pow2(254 - k);
      hide Pow2;
    }
  }

  /** The loop reaches the same exponent as the addition chain of the other implementation. */
  lemma {:induction false} ChainEnd()
    ensures InverseChain(0) == P - 2
  {
    hide InverseChain;
    hide Pow2;
    hide Curve25519.Scaled;
    ChainOnes(5);
    ChainTail();
    Curve25519.InverseExponent();
    ScaledFive(Curve25519.Ones(250));
  }

  lemma {:induction false} ScaledFive(e: nat)
    ensures Curve25519.Scaled(e, 5) == 32 * e
  {
    assert Pow2(5) == 32;
  }

  lemma {:induction false} ChainTail()
    ensures InverseChain(0) == 32 * InverseChain(5) + 11
  {
    assert InverseChain(4) == 2 * InverseChain(5);
    assert InverseChain(3) == 2 * InverseChain(4) + 1;
    assert InverseChain(2) == 2 * InverseChain(3);
    assert InverseChain(1) == 2 * InverseChain(2) + 1;
    assert InverseChain(0) == 2 * InverseChain(1) + 1;
  }

  lemma {:induction false} PowStep(c: array<i64>, x: int, d: nat, e: nat)
    requires Holds(c, FMul(FPow(x, d), FPow(x, e)))
    ensures Holds(c, FPow(x, d + e))
  {
    hide FPow;
    hide Holds;
    PowAdd(x, d, e);
    FMulCong(FPow(x, d), FPow(x, e));
    hide FMul;
    hide Cong;
    CongTrans(FMul(FPow(x, d), FPow(x, e)), FPow(x, d) * FPow(x, e), FPow(x, d + e));
    Rename(c, FMul(FPow(x, d), FPow(x, e)), FPow(x, d + e));
  }

  lemma {:induction false} PowOne(x: int)
    ensures Cong(x, FPow(x, 1))
  {
    assert FPow(x, 1) == FMul(x, FPow(x, 0)) == FMul(x, 1);
  }

  method Copy(o: array<i64>, a: array<i64>)
    requires o.Length == a.Length
    modifies o
    ensures o[..] == old(a[..])
  {
    forall k | 0 <= k < o.Length { o[k] := a[k]; }
  }

  method CopyHeld(o: array<i64>, c: array<i64>, ghost v: int)
    requires o.Length == 16 && Holds(c, v)
    modifies o
    ensures Holds(o, v)
  {
    Copy(o, c);
  }

  /** invert: o may be z. */
  method Invert(o: array<i64>, z: array<i64>, ghost x: int)
    requires o.Length == 16 && Holds(z, x)
    modifies o
    ensures Holds(o, FPow(x, P - 2))
  {
    hide FPow;
    hide Holds;
    hide Cong;
    hide InverseChain;
    ChainStart();
    var c := new i64[16];
    CopyHeld(c, z, x);
    PowOne(x);
    Rename(c, x, FPow(x, 1));
    Rename(z, x, FPow(x, 1));
    ChainEnd();
    ghost var e := 1;
    var a := 253;
    while a >= 0
      invariant -1 <= a <= 253 && e == InverseChain(a + 1)
      invariant Holds(z, FPow(x, 1)) && Holds(c, FPow(x, e)) && c.Length == 16
    {
      ChainStep(a);
      MultPowers(c, c, x, e, e);
      e := e + e;
      if a != 2 && a != 4 {
        MultPowers(c, z, x, e, 1);
        e := e + 1;
      }
      a := a - 1;
    }
    CopyHeld(o, c, FPow(x, e));
  }

  /** c = c * z on powers of one base. */
  method MultPowers(c: array<i64>, z: array<i64>, ghost x: int, ghost d: nat, ghost e: nat)
    requires Holds(c, FPow(x, d)) && Holds(z, FPow(x, e)) && c.Length == 16
    modifies c
    ensures Holds(c, FPow(x, d + e))
  {
    hide FPow;
    hide Holds;
    Loosen(c, FPow(x, d));
    Loosen(z, FPow(x, e));
    MultMod(c, c, z, FPow(x, d), FPow(x, e));
    PowStep(c, x, d, e);
  }

  // ---------- packing

  /** Digits below 2^16. */
  predicate Digits(s: seq<i64>) {
    forall k | 0 <= k < |s| :: 0 <= s[k] <= 0xffff
  }

  /** Three carries make the digits canonical, from any limbs below 2^62. */
  method CarryThrice(t: array<i64>)
    requires t.Length == 16
    requires forall k | 0 <= k < 16 :: -0x4000_0000_0000_0000 <= t[k] <= 0x4000_0000_0000_0000
    modifies t
    ensures Digits(t[..]) && Cong(Val16(t[..]), Val16(old(t[..])))
  {
    hide Val16;
    hide Cong;
    ghost var v := Val16(t[..]);
    Carry(t);
    ghost var w := Val16(t[..]);
    CarriedRange(t[..], v / R256);
    Carry(t);
    ghost var y := Val16(t[..]);
    CarryCong(v, w);
    CarryCong(w, y);
    CongTrans(y, w, v);
    SecondCarry(w, y);
    Carry(t);
  }

  lemma {:induction false} SecondCarry(w: int, y: int)
    requires -0x100_0000_0000_0000 <= w < R256 + 0x100_0000_0000_0000
    requires y == w - w / R256 * (R256 - 38)
    ensures 0 <= y < R256 && y / R256 == 0
  {
    if w < 0 {
      DivModUnique(w, R256, -1, w + R256);
    } else if w >= R256 {
      DivModUnique(w, R256, 1, w - R256);
    } else {
      DivModUnique(w, R256, 0, w);
    }
    DivModUnique(y, R256, 0, y);
  }

  /** The digit of p that pack subtracts at position k. */
  function PDigit(k: nat): i64 {
    if k == 0 then 0xffed else if k == 15 then 0x7fff else 0xffff
  }

  /** The lowest k digits of p. */
  ghost function PLow(k: nat): int {
    if k == 0 then 0 else PLow(k - 1) + Weight(k - 1) * PDigit(k - 1) as int
  }

  lemma {:induction false} PLowOnes(k: nat)
    requires 1 <= k <= 15
    ensures PLow(k) == Weight(k) - 19
  {
    if k == 1 {
      assert PLow(0) == 0 && Weight(0) == 1;
      assert PLow(1) == 0xffed;
    } else {
      PLowOnes(k - 1);
    }
  }

  lemma {:induction false} PLowAll()
    ensures PLow(16) == P
  {
    PLowOnes(15);
    Weight16();
    assert Weight(16) == 0x1_0000 * Weight(15);
    assert PLow(16) == PLow(15) + Weight(15) * 0x7fff;
    hide Weight;
    hide PLow;
  }

  /** m[i] holds the difference so far with a possibly negative top digit; moving
      its borrow up keeps the value. */
  lemma {:induction false} BorrowStep(s: seq<i64>, i: nat, t: seq<i64>, x: i64)
    requires 1 <= i < |s| == |t| && -0x1_0000 <= s[i - 1] <= 0xffff
    requires t[i] as int == x as int - PDigit(i) as int - s[i - 1] as int / 0x1_0000 % 2
    requires t[i - 1] == s[i - 1] % 0x1_0000 && t[..i - 1] == s[..i - 1]
    ensures Val16(t[..i + 1]) == Val16(s[..i]) + Weight(i) * x as int - Weight(i) * PDigit(i) as int
  {
    ValSnoc(t, i);
    ValSnoc(t, i - 1);
    ValSnoc(s, i - 1);
    WeightStep(i - 1, s[i - 1] as int / 0x1_0000 % 2);
    hide Val16;
    hide Weight;
    BorrowAlgebra(Weight(i - 1), Weight(i), s[i - 1] as int, x as int, PDigit(i) as int);
  }

  lemma {:induction false} BorrowAlgebra(w: int, u: int, m: int, x: int, d: int)
    requires -0x1_0000 <= m <= 0xffff && u * (m / 0x1_0000 % 2) == w * (0x1_0000 * (m / 0x1_0000 % 2))
    ensures w * (m % 0x1_0000) + u * (x - d - m / 0x1_0000 % 2) == w * m + u * x - u * d
  {
    var b := m / 0x1_0000 % 2;
    assert m % 0x1_0000 == m + 0x1_0000 * b;
    assert w * (m + 0x1_0000 * b) == w * m + w * (0x1_0000 * b);
    assert u * (x - d - b) == u * x - u * d - u * b;
  }

  /** One step of the borrow chain. */
  method Borrow(m: array<i64>, t: array<i64>, i: nat, d: i64)
    requires m.Length == 16 && t.Length == 16 && m != t && Digits(t[..]) && 1 <= i < 16 && d == PDigit(i)
    requires Digits(m[..i - 1]) && -0x1_0000 <= m[i - 1] <= 0xffff
    requires Val16(m[..i]) == Val16(t[..i]) - PLow(i)
    modifies m
    ensures Digits(m[..i]) && -0x1_0000 <= m[i] <= 0xffff
    ensures Val16(m[..i + 1]) == Val16(t[..i + 1]) - PLow(i + 1)
  {
    hide Val16;
    hide Weight;
    hide PLow;
    ghost var s, x := m[..], t[..];
    assert 0 <= t[i] <= 0xffff && x[..i] == t[..i] && s[..i - 1] == m[..i - 1] && s[..i] == m[..i];
    hide Digits;
    m[i] := t[i] - d - m[i - 1] / 0x1_0000 % 2;
    m[i - 1] := m[i - 1] % 0x1_0000;
    SubtractStep(s, i, m[..], x);
    assert m[..][..i] == m[..i] && m[..][..i + 1] == m[..i + 1] && x[..i + 1] == t[..i + 1];
  }

  /** The inner loop of pack: m = t - p, with the sign of the difference in b. */
  method SubtractP(m: array<i64>, t: array<i64>) returns (b: i64)
    requires m.Length == 16 && t.Length == 16 && m != t && Digits(t[..])
    modifies m
    ensures b == if Val16(t[..]) < P then 1 else 0
    ensures b == 0 ==> Digits(m[..]) && Val16(m[..]) == Val16(t[..]) - P
  {
    hide Val16;
    hide Weight;
    hide PLow;
    ghost var x := t[..];
    SubtractStart(x, [x[0] - 0xffed]);
    m[0] := t[0] - 0xffed;
    assert m[..1] == [x[0] - 0xffed] && t[..1] == x[..1];
    for i := 1 to 15
      invariant t[..] == x && Digits(t[..])
      invariant Digits(m[..i - 1]) && -0x1_0000 <= m[i - 1] <= 0xffff
      invariant Val16(m[..i]) == Val16(t[..i]) - PLow(i)
    {
      Borrow(m, t, i, 0xffff);
    }
    Borrow(m, t, 15, 0x7fff);
    b := m[15] / 0x1_0000 % 2;
    assert m[..16] == m[..] && t[..16] == x;
    PLowAll();
    SubtractSign(m[..]);
  }

  lemma {:induction false} SubtractStart(x: seq<i64>, m: seq<i64>)
    requires |x| >= 1 && 0 <= x[0] <= 0xffff && m == [x[0] - 0xffed]
    ensures Val16(m) == Val16(x[..1]) - PLow(1)
  {
    assert x[..1] == [x[0]];
    assert PLow(1) == PLow(0) + Weight(0) * 0xffed;
  }

  lemma {:induction false} SubtractStep(s: seq<i64>, i: nat, t: seq<i64>, x: seq<i64>)
    requires 1 <= i < |s| == |t| && i < |x| && -0x1_0000 <= s[i - 1] <= 0xffff
    requires t[i] as int == x[i] as int - (if i == 15 then 0x7fff else 0xffff) - s[i - 1] as int / 0x1_0000 % 2
    requires t[i - 1] == s[i - 1] % 0x1_0000 && t[..i - 1] == s[..i - 1]
    requires Digits(s[..i - 1]) && 0 <= x[i] <= 0xffff && Val16(s[..i]) == Val16(x[..i]) - PLow(i)
    ensures Val16(t[..i + 1]) == Val16(x[..i + 1]) - PLow(i + 1)
    ensures Digits(t[..i]) && -0x1_0000 <= t[i] <= 0xffff
  {
    assert t[..i] == s[..i - 1] + [t[i - 1]];
    hide Digits;
    hide Val16;
    hide Weight;
    BorrowStep(s, i, t, x[i]);
    ValSnoc(x, i);
    assert PLow(i + 1) == PLow(i) + Weight(i) * PDigit(i) as int;
  }

  lemma {:induction false} SubtractSign(m: seq<i64>)
    requires |m| == 16 && Digits(m[..15]) && -0x1_0000 <= m[15] <= 0xffff
    ensures m[15] / 0x1_0000 % 2 == (if Val16(m) < 0 then 1 else 0) && (Val16(m) >= 0 ==> Digits(m))
  {
    TopDigitSign(m);
    hide Val16;
    assert m == m[..15] + [m[15]];
  }

  /** The value is negative exactly when the top digit is. */
  lemma {:induction false} TopDigitSign(m: seq<i64>)
    requires |m| == 16 && Digits(m[..15])
    ensures Val16(m) < 0 <==> m[15] < 0
  {
    hide Val16;
    hide Weight;
    ValSnoc(m, 15);
    assert m[..16] == m;
    ValRange(m[..15]);
    SignedTop(Weight(15), m[15] as int, Val16(m[..15]));
  }

  lemma {:induction false} SignedTop(w: int, d: int, lo: int)
    requires 0 <= lo < w
    ensures lo + w * d < 0 <==> d < 0
  {
    if d < 0 {
      assert w * d <= w * -1;
    } else {
      assert w * d >= 0;
    }
  }

  /** Two conditional subtractions of p leave the least residue. */
  method ReduceDigits(t: array<i64>)
    requires t.Length == 16 && Digits(t[..])
    modifies t
    ensures Digits(t[..]) && Val16(t[..]) == Val16(old(t[..])) % P
  {
    hide Val16;
    var m := new i64[16];
    ghost var v := Val16(t[..]);
    DigitsBelow(t[..]);
    for j := 0 to 2
      invariant Digits(t[..])
      invariant Val16(t[..]) == if v < P then v else if v < 2 * P || j < 2 then v - (if j == 0 then 0 else P)
        else v - 2 * P
    {
      var b := SubtractP(m, t);
      Cswap(t, m, 1 - b);
    }
    LeastResidue(v, Val16(t[..]));
  }

  lemma {:induction false} DigitsBelow(t: seq<i64>)
    requires |t| == 16 && Digits(t)
    ensures 0 <= Val16(t) < 2 * P + 38
  {
    ValRange(t);
    Weight16();
  }

  lemma {:induction false} LeastResidue(v: int, r: int)
    requires 0 <= v < 2 * P + 38 && r == if v < P then v else if v < 2 * P then v - P else v - 2 * P
    ensures r == v % P
  {
    DivModUnique(v, P, if v < P then 0 else if v < 2 * P then 1 else 2, r);
  }

  /** The byte pairs of the digits decode to the same value. */
  lemma {:induction false} BytesOfDigits(t: seq<i64>, o: seq<u8>)
    requires Digits(t) && |o| == 2 * |t|
    requires forall k | 0 <= k < |t| :: o[2 * k] as int == t[k] as int % 256 && o[2 * k + 1] as int == t[k] as int / 256
    ensures DecodeLittleEndian(o) == Val16(t)
  {
    if t != [] {
      var r := o[2..];
      forall k | 0 <= k < |t[1..]|
        ensures r[2 * k] as int == t[1..][k] as int % 256 && r[2 * k + 1] as int == t[1..][k] as int / 256
      {
        assert r[2 * k] == o[2 * (k + 1)] && r[2 * k + 1] == o[2 * (k + 1) + 1];
      }
      BytesOfDigits(t[1..], r);
      assert o[1..][1..] == r && o[1..][0] == o[1];
    }
  }

  method WriteDigits(o: array<u8>, t: array<i64>)
    requires o.Length == 32 && t.Length == 16 && Digits(t[..])
    modifies o
    ensures Val16(t[..]) >= 0 && o[..] == EncodeLittleEndian(Val16(t[..]), 32)
  {
    hide Val16;
    hide EncodeLittleEndian;
    hide DecodeLittleEndian;
    assert forall k | 0 <= k < 16 :: 0 <= t[k] <= 0xffff by {
      assert forall k | 0 <= k < 16 :: t[k] == t[..][k];
    }
    for i := 0 to 16
      invariant forall k | 0 <= k < i ::
        o[2 * k] as int == t[k] as int % 256 && o[2 * k + 1] as int == t[k] as int / 256
    {
      o[2 * i] := (t[i] % 256) as u8;
      o[2 * i + 1] := (t[i] / 256) as u8;
    }
    BytesOfDigits(t[..], o[..]);
    EncodeUnique(o[..]);
  }

  /** pack: the bytes of the least residue, from any limbs below 2^62. */
  method Pack(o: array<u8>, n: array<i64>)
    requires o.Length == 32 && n.Length == 16
    requires forall k | 0 <= k < 16 :: -0x4000_0000_0000_0000 <= n[k] <= 0x4000_0000_0000_0000
    modifies o
    ensures o[..] == EncodeLittleEndian(Val16(n[..]) % P, 32)
  {
    hide Val16;
    hide EncodeLittleEndian;
    var t := new i64[16];
    Copy(t, n);
    CarryThrice(t);
    ReduceDigits(t);
    WriteDigits(o, t);
  }

  // ---------- ladder

  /** The four arrays stand for the two points: (a, c) and (b, d). */
  ghost predicate HoldsPoints(a: array<i64>, c: array<i64>, b: array<i64>, d: array<i64>, s: Points)
    reads a, b, c, d
  {
    Holds(a, s.x2) && Holds(c, s.z2) && Holds(b, s.x3) && Holds(d, s.z3)
  }

  predicate Distinct4(a: array<i64>, b: array<i64>, c: array<i64>, d: array<i64>) {
    a != b && a != c && a != d && b != c && b != d && c != d
  }

  method SwapPoints(a: array<i64>, c: array<i64>, b: array<i64>, d: array<i64>, r: i64, ghost s: Points)
    requires HoldsPoints(a, c, b, d, s) && Distinct4(a, b, c, d) && 0 <= r <= 1
    modifies a, b, c, d
    ensures HoldsPoints(a, c, b, d, CondSwap(r == 1, s))
  {
    hide Val16;
    hide Reduced;
    hide Cong;
    Cswap(a, b, r);
    Cswap(c, d, r);
  }

  /** Products of the loop body: afterwards a = CB, c = DA, d = AA and f = BB in the RFC's names. */
  method StepProducts(a: array<i64>, c: array<i64>, b: array<i64>, d: array<i64>, e: array<i64>, f: array<i64>,
                      ghost s: Points,
                      ghost sa: int, ghost sb: int, ghost sc: int, ghost sd: int)
    requires HoldsPoints(a, c, b, d, s) && Distinct4(a, b, c, d) && e.Length == 16 && f.Length == 16 && e != f
    requires e != a && e != b && e != c && e != d && f != a && f != b && f != c && f != d
    requires sa == FAdd(s.x2, s.z2) && sb == FSub(s.x2, s.z2) && sc == FAdd(s.x3, s.z3) && sd == FSub(s.x3, s.z3)
    modifies a, b, c, d, e, f
    ensures Holds(a, FMul(sc, sb)) && Holds(c, FMul(sd, sa)) && Holds(d, FMul(sa, sa)) && Holds(f, FMul(sb, sb))
  {
    Lengths(a, c, b, d, s);
    hide Holds;
    hide HoldsLoose;
    hide FAdd;
    hide FSub;
    hide FMul;
    Add(e, a, c, s.x2, s.z2);
    Subtract(a, a, c, s.x2, s.z2);
    Add(c, b, d, s.x3, s.z3);
    Subtract(b, b, d, s.x3, s.z3);
    MultMod(d, e, e, sa, sa);
    MultMod(f, a, a, sb, sb);
    MultMod(a, c, a, sc, sb);
    MultMod(c, b, e, sd, sa);
  }

  lemma {:induction false} Lengths(a: array<i64>, c: array<i64>, b: array<i64>, d: array<i64>, s: Points)
    requires HoldsPoints(a, c, b, d, s)
    ensures a.Length == 16 && b.Length == 16 && c.Length == 16 && d.Length == 16
  {
  }

  method SetSmall(a: array<i64>, lo: i64, hi: i64)
    requires a.Length == 16 && 0 <= lo <= 0xffff && 0 <= hi <= 0xffff
    modifies a
    ensures Holds(a, lo as int + 0x1_0000 * hi as int)
  {
    hide Val16;
    hide Cong;
    forall k | 0 <= k < 16 { a[k] := if k == 0 then lo else if k == 1 then hi else 0; }
    ValSmall(a[..]);
    CongRefl(Val16(a[..]));
  }

  lemma {:induction false} ValSmall(s: seq<i64>)
    requires |s| >= 2 && forall k | 2 <= k < |s| :: s[k] == 0
    ensures Val16(s) == s[0] as int + 0x1_0000 * s[1] as int
  {
    assert s[1..][1..] == s[2..];
    ValZero(s[2..]);
  }

  /** The rest of the loop body: the next two points. */
  method StepCombine(a: array<i64>, c: array<i64>, b: array<i64>, d: array<i64>, e: array<i64>, f: array<i64>,
                     ghost da: int, ghost cb: int, ghost aa: int, ghost bb: int)
    requires a.Length == 16 && b.Length == 16 && c.Length == 16 && d.Length == 16 && e.Length == 16
    requires Distinct4(a, b, c, d) && e != a && e != b && e != c && e != d && f != a && f != b && f != c && f != e
    requires f != d
    requires Holds(a, cb) && Holds(c, da) && Holds(d, aa) && Holds(f, bb)
    modifies a, b, c, d, e
    ensures var g, sum, diff := FSub(aa, bb), FAdd(da, cb), FSub(da, cb);
            HoldsPoints(a, c, b, d, Points(FMul(aa, bb), FMul(g, FAdd(aa, FMul(A24, g))),
                                           FMul(sum, sum), FMul(9, FMul(diff, diff))))
  {
    hide Holds;
    hide HoldsLoose;
    hide FAdd;
    hide FSub;
    hide FMul;
    hide Cong;
    ghost var g, sum, diff := FSub(aa, bb), FAdd(da, cb), FSub(da, cb);
    var k121665, nine := new i64[16], new i64[16];
    SetSmall(k121665, 0xdb41, 1);
    Loosen(k121665, A24);
    SetSmall(nine, 9, 0);
    Loosen(nine, 9);
    CombineSquares(a, c, b, d, e, f, da, cb, aa, bb);
    MultMod(a, c, k121665, g, A24);
    Add(a, a, d, FMul(g, A24), aa);
    A24Order(aa, g);
    RenameLoose(a, FAdd(FMul(g, A24), aa), FAdd(aa, FMul(A24, g)));
    MultMod(c, c, a, g, FAdd(aa, FMul(A24, g)));
    Loosen(d, aa);
    Loosen(f, bb);
    MultMod(a, d, f, aa, bb);
    Loosen(b, FMul(diff, diff));
    MultMod(d, b, nine, FMul(diff, diff), 9);
    MulCommutes(FMul(diff, diff), 9);
    MultMod(b, e, e, sum, sum);
  }

  /** The sum, the squared difference and E. */
  method CombineSquares(a: array<i64>, c: array<i64>, b: array<i64>, d: array<i64>, e: array<i64>, f: array<i64>,
                        ghost da: int, ghost cb: int, ghost aa: int, ghost bb: int)
    requires a.Length == 16 && b.Length == 16 && c.Length == 16 && d.Length == 16 && e.Length == 16
    requires Distinct4(a, b, c, d) && e != a && e != b && e != c && e != d && f != a && f != b && f != c && f != e
    requires f != d
    requires Holds(a, cb) && Holds(c, da) && Holds(d, aa) && Holds(f, bb)
    modifies a, b, c, e
    ensures var diff := FSub(da, cb);
      HoldsLoose(e, FAdd(da, cb)) && Holds(b, FMul(diff, diff)) && HoldsLoose(c, FSub(aa, bb))
  {
    hide Holds;
    hide HoldsLoose;
    hide FAdd;
    hide FSub;
    hide FMul;
    hide Cong;
    ghost var diff, opp := FSub(da, cb), FSub(cb, da);
    Add(e, a, c, cb, da);
    SumCommutes(cb, da);
    Subtract(a, a, c, cb, da);
    MultMod(b, a, a, opp, opp);
    SquareOpposite(da, cb);
    Rename(b, FMul(opp, opp), FMul(diff, diff));
    Subtract(c, d, f, aa, bb);
  }

  lemma {:induction false} SumCommutes(a: int, b: int)
    ensures FAdd(a, b) == FAdd(b, a)
  {
  }

  lemma {:induction false} MulCommutes(a: int, b: int)
    ensures FMul(a, b) == FMul(b, a)
  {
    assert a * b == b * a;
  }

  lemma {:induction false} A24Order(aa: int, g: int)
    ensures Cong(FAdd(FMul(g, A24), aa), FAdd(aa, FMul(A24, g)))
  {
    MulCommutes(g, A24);
    SumCommutes(FMul(A24, g), aa);
  }

  lemma {:induction false} SquareOpposite(a: int, b: int)
    ensures Cong(FMul(FSub(b, a), FSub(b, a)), FMul(FSub(a, b), FSub(a, b)))
  {
    var x, y := FSub(a, b), FSub(b, a);
    CongMultiple(y, b - a, -((b - a) / P));
    CongMultiple(x, a - b, -((a - b) / P));
    CongMul(y, y, b - a, b - a);
    CongMul(x, x, a - b, a - b);
    assert (b - a) * (b - a) == (a - b) * (a - b);
    FMulCong(x, x);
    FMulCong(y, y);
  }

  /** One iteration of the ladder after the swap. */
  method LadderStepInPlace(a: array<i64>, c: array<i64>, b: array<i64>, d: array<i64>, e: array<i64>, f: array<i64>,
                           ghost s: Points)
    requires HoldsPoints(a, c, b, d, s) && Distinct4(a, b, c, d) && e.Length == 16 && f.Length == 16 && e != f
    requires e != a && e != b && e != c && e != d && f != a && f != b && f != c && f != d
    modifies a, b, c, d, e, f
    ensures HoldsPoints(a, c, b, d, LadderStep(9, s))
  {
    Lengths(a, c, b, d, s);
    hide Holds;
    hide FAdd;
    hide FSub;
    hide FMul;
    ghost var sa, sb, sc, sd := FAdd(s.x2, s.z2), FSub(s.x2, s.z2), FAdd(s.x3, s.z3), FSub(s.x3, s.z3);
    StepProducts(a, c, b, d, e, f, s, sa, sb, sc, sd);
    StepCombine(a, c, b, d, e, f, FMul(sd, sa), FMul(sc, sb), FMul(sa, sa), FMul(sb, sb));
  }

  /** The loop over the scalar bits, which swaps before and after each step. */
  method Ladder(a: array<i64>, c: array<i64>, b: array<i64>, d: array<i64>, z: array<u8>)
    requires z.Length == 32 && HoldsPoints(a, c, b, d, Points(1, 0, 9, 1)) && Distinct4(a, b, c, d)
    modifies a, b, c, d
    ensures HoldsPoints(a, c, b, d, SimpleLadder(9, DecodeLittleEndian(z[..]), 0))
  {
    hide Holds;
    hide LadderStep;
    hide DecodeLittleEndian;
    hide Bit;
    ghost var k := DecodeLittleEndian(z[..]);
    var e, f := new i64[16], new i64[16];
    var i := 254;
    while i >= 0
      invariant -1 <= i <= 254 && DecodeLittleEndian(z[..]) == k
      invariant HoldsPoints(a, c, b, d, SimpleLadder(9, k, (i + 1) as nat))
    {
      ghost var s := SimpleLadder(9, k, i + 1);
      var bit := Curve25519.ScalarBit(z, i);
      var r := bit as int as i64;
      SwapPoints(a, c, b, d, r, s);
      LadderStepInPlace(a, c, b, d, e, f, CondSwap(r == 1, s));
      SwapPoints(a, c, b, d, r, LadderStep(9, CondSwap(r == 1, s)));
      i := i - 1;
    }
  }

  // ---------- the whole function

  /** normalize_key */
  method NormalizeKey(z: array<u8>)
    requires z.Length == 32
    modifies z
    ensures z[..] == Clamp(old(z[..]))
  {
    hide Clamp;
    ghost var k := z[..];
    Curve25519.ClampIs(k);
    z[31] := Or(And(z[31] as nat, 127), 64) as u8;
    z[0] := And(z[0] as nat, 248) as u8;
    assert z[..] == k[0 := z[0]][31 := z[31]];
  }

  /** The end of wg_generate_public_key: a / c as bytes. */
  method Finish(o: array<u8>, a: array<i64>, c: array<i64>, ghost x: int, ghost z: int)
    requires o.Length == 32 && a != c && Holds(a, x) && Holds(c, z)
    modifies o, a, c
    ensures o[..] == EncodeLittleEndian(FMul(x, FPow(z, P - 2)), 32)
  {
    HeldLength(a, x);
    HeldLength(c, z);
    hide FPow;
    hide Holds;
    hide EncodeLittleEndian;
    Invert(c, c, z);
    Loosen(a, x);
    Loosen(c, FPow(z, P - 2));
    MultMod(a, a, c, x, FPow(z, P - 2));
    HeldResidue(a, x, FPow(z, P - 2));
    Pack(o, a);
  }

  lemma {:induction false} HeldLength(a: array<i64>, v: int)
    requires Holds(a, v)
    ensures a.Length == 16
  {
  }

  lemma {:induction false} HeldResidue(a: array<i64>, x: int, y: int)
    requires Holds(a, FMul(x, y))
    ensures a.Length == 16 && Val16(a[..]) % P == FMul(x, y)
    ensures forall k | 0 <= k < 16 :: -0x4000_0000_0000_0000 <= a[k] <= 0x4000_0000_0000_0000
  {
    hide Val16;
    forall k | 0 <= k < 16
      ensures -0x4000_0000_0000_0000 <= a[k] <= 0x4000_0000_0000_0000
    {
      assert a[k] == a[..][k];
    }
  }

  /** The base point of section 4.1 of RFC 7748. */
  function BasePoint(): seq<u8> {
    [9] + seq(31, _ => 0)
  }

  lemma {:induction false} BaseCoordinate()
    ensures |BasePoint()| == 32 && DecodeCoordinate(BasePoint()) == 9
  {
    hide DecodeLittleEndian;
    hide Pow2;
    BaseNine();
    PValue();
    DivModUnique(9, P + 19, 0, 9);
    DivModUnique(9, P, 0, 9);
  }

  lemma {:induction false} BaseNine()
    ensures DecodeLittleEndian(BasePoint()) == 9
  {
    var s := BasePoint();
    assert s[1..] == seq(31, _ => 0 as u8);
    DecodeZeros(s[1..]);
  }

  lemma {:induction false} DecodeZeros(s: seq<u8>)
    requires forall k | 0 <= k < |s| :: s[k] == 0
    ensures DecodeLittleEndian(s) == 0
  {
    if s != [] {
      DecodeZeros(s[1..]);
    }
  }

  /** X25519 at the base point, in terms of the plain ladder. */
  lemma {:induction false} BaseLadder(k: seq<u8>)
    requires |k| == 32
    ensures |BasePoint()| == 32
    ensures var s := SimpleLadder(9, DecodeLittleEndian(Clamp(k)), 0);
            X25519(k, BasePoint()) == EncodeLittleEndian(FMul(s.x2, FPow(s.z2, P - 2)), 32)
  {
    hide FPow;
    hide FMul;
    hide SimpleLadder;
    hide RfcLadder;
    hide DecodeLittleEndian;
    hide EncodeLittleEndian;
    hide DecodeCoordinate;
    hide BasePoint;
    hide Clamp;
    BaseCoordinate();
    DelayedSwaps(9, DecodeLittleEndian(Clamp(k)), 0);
  }

  method StartPoints(a: array<i64>, c: array<i64>, b: array<i64>, d: array<i64>)
    requires a.Length == 16 && b.Length == 16 && c.Length == 16 && d.Length == 16 && Distinct4(a, b, c, d)
    modifies a, b, c, d
    ensures HoldsPoints(a, c, b, d, Points(1, 0, 9, 1))
  {
    hide Holds;
    SetSmall(a, 1, 0);
    SetSmall(b, 9, 0);
    SetSmall(c, 0, 0);
    SetSmall(d, 1, 0);
  }

  /** wg_generate_public_key is X25519 at the base point, so it agrees with
      curve25519_generic on every private key. */
  method GeneratePublicKey(publicKey: array<u8>, privateKey: array<u8>)
    requires publicKey.Length == 32 && privateKey.Length == 32
    modifies publicKey
    ensures |BasePoint()| == 32 && publicKey[..] == X25519(old(privateKey[..]), BasePoint())
  {
    hide Holds;
    hide FPow;
    hide FMul;
    hide SimpleLadder;
    hide DecodeLittleEndian;
    hide EncodeLittleEndian;
    hide BasePoint;
    hide Clamp;
    hide X25519;
    var z := new u8[32];
    forall i | 0 <= i < 32 { z[i] := privateKey[i]; }
    assert z[..] == old(privateKey[..]);
    NormalizeKey(z);
    ghost var clamped := z[..];
    var a, b, c, d := new i64[16], new i64[16], new i64[16], new i64[16];
    StartPoints(a, c, b, d);
    assert z[..] == clamped;
    Ladder(a, c, b, d, z);
    assert z[..] == clamped;
    ghost var s := SimpleLadder(9, DecodeLittleEndian(z[..]), 0);
    BaseLadder(old(privateKey[..]));
    Finish(publicKey, a, c, s.x2, s.z2);
  }
}
