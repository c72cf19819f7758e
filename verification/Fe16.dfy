/** The second X25519 implementation, in the embeddable library: sixteen signed
    64-bit limbs of 16 bits, updated in place by loops. */
module Fe16 {
  import opened Bits
  import opened Field25519

  newtype i64 = x: int | -0x8000_0000_0000_0000 <= x < 0x8000_0000_0000_0000

  /** The integer a limb vector stands for. */
  function Val16(s: seq<i64>): int {
    if s == [] then 0 else s[0] as int + 0x1_0000 * Val16(s[1..])
  }

  /** Weight of limb k. */
  function Weight(k: nat): (w: nat)
    ensures w >= 1
  {
    if k == 0 then 1 else 0x1_0000 * Weight(k - 1)
  }

  lemma {:induction false} ValUpdate(s: seq<i64>, k: nat, x: i64)
    requires k < |s|
    ensures Val16(s[k := x]) == Val16(s) + Weight(k) * (x as int - s[k] as int)
  {
    if k == 0 {
      assert s[0 := x][1..] == s[1..];
    } else {
      assert s[k := x][1..] == s[1..][k - 1 := x];
      ValUpdate(s[1..], k - 1, x);
      assert Weight(k) * (x as int - s[k] as int) == 0x1_0000 * (Weight(k - 1) * (x as int - s[k] as int));
    }
  }

  lemma {:induction false} ValAppend(s: seq<i64>, t: seq<i64>)
    ensures Val16(s + t) == Val16(s) + Weight(|s|) * Val16(t)
  {
    if s == [] {
      assert s + t == t;
    } else {
      assert (s + t)[1..] == s[1..] + t;
      ValAppend(s[1..], t);
      assert Weight(|s|) * Val16(t) == 0x1_0000 * (Weight(|s| - 1) * Val16(t));
    }
  }

  /** Digits in range give a value below the next weight. */
  lemma {:induction false} ValRange(s: seq<i64>)
    requires forall k | 0 <= k < |s| :: 0 <= s[k] <= 0xffff
    ensures 0 <= Val16(s) < Weight(|s|)
  {
    if s != [] {
      ValRange(s[1..]);
    }
  }

  const R256: int := 2 * (P + 19)

  lemma {:induction false} Weight16()
    ensures Weight(16) == R256
  {
    WeightPow2(16);
    PValue();
  }

  lemma {:induction false} WeightPow2(k: nat)
    ensures Weight(k) == Pow2(16 * k)
  {
    if k > 0 {
      WeightPow2(k - 1);
      Pow2Add(16, 16 * (k - 1));
      Pow2Square(4, 0x10);
      Pow2Square(8, 0x100);
      hide Pow2;
    }
  }

  // ---------- carry

  /** carry: one pass of carries, the last one coming round times 38. */
  method Carry(o: array<i64>)
    requires o.Length == 16
    requires forall k | 0 <= k < 16 :: -0x4000_0000_0000_0000 <= o[k] <= 0x4000_0000_0000_0000
    modifies o
    ensures var c := Val16(old(o[..])) / R256;
            && Val16(o[..]) == Val16(old(o[..])) - c * (R256 - 38)
            && 0 <= o[0] as int - 38 * c <= 0xffff
            && -0x8000_0000_0000 <= c <= 0x8000_0000_0000
    ensures forall k | 1 <= k < 16 :: 0 <= o[k] <= 0xffff
  {
    hide Val16;
    hide Weight;
    ghost var v := Val16(o[..]);
    ghost var c := v / R256;
    for i := 0 to 16
      invariant forall k | 1 <= k < i :: 0 <= o[k] <= 0xffff
      invariant i == 0 || i == 16 || 0 <= o[0] <= 0xffff
      invariant i < 16 ==> Val16(o[..]) == v && -0x4000_8000_0000_0000 <= o[i] <= 0x4000_8000_0000_0000
      invariant forall k | i < k < 16 :: o[k] == old(o[k])
      invariant i == 16 ==> 0 <= o[0] as int - 38 * c <= 0xffff && -0x8000_0000_0000 <= c <= 0x8000_0000_0000
      invariant i == 16 ==> Val16(o[..]) == v - c * (R256 - 38)
    {
      CarryDigit(o, i);
    }
  }

  /** The carry out of one digit. */
  method CarryDigit(o: array<i64>, i: nat)
    requires o.Length == 16 && i < 16 && -0x4000_8000_0000_0000 <= o[i] <= 0x4000_8000_0000_0000
    requires forall k | i < k < 16 :: -0x4000_0000_0000_0000 <= o[k] <= 0x4000_0000_0000_0000
    requires i == 15 ==> forall k | 0 <= k < 15 :: 0 <= o[k] <= 0xffff
    modifies o
    ensures 0 <= o[i] <= 0xffff && forall k | 0 <= k < 16 && k != i && k != (i + 1) % 16 :: o[k] == old(o[k])
    ensures i < 15 ==> -0x4000_8000_0000_0000 <= o[i + 1] <= 0x4000_8000_0000_0000
    ensures i < 15 ==> Val16(o[..]) == Val16(old(o[..]))
    ensures i == 15 ==>
      var c := Val16(old(o[..])) / R256;
      && Val16(o[..]) == Val16(old(o[..])) - c * (R256 - 38)
      && o[0] as int == old(o[0]) as int + 38 * c && -0x8000_0000_0000 <= c <= 0x8000_0000_0000
  {
    hide Val16;
    hide Weight;
    ghost var s := o[..];
    var q := o[i] / 0x1_0000;
    o[(i + 1) % 16] := o[(i + 1) % 16] + (if i == 15 then 38 else 1) * q;
    o[i] := o[i] % 0x1_0000;
    if i < 15 {
      MoveCarry(s, i, q, o[..]);
    } else {
      WrapCarry(s, q, o[..]);
    }
  }

  lemma {:induction false} MoveCarry(s: seq<i64>, i: nat, q: i64, t: seq<i64>)
    requires |s| == |t| && i + 1 < |s| && q == s[i] / 0x1_0000
    requires s[i + 1] as int + q as int == t[i + 1] as int && t[i] == s[i] % 0x1_0000
    requires t == s[i + 1 := t[i + 1]][i := t[i]]
    ensures Val16(t) == Val16(s)
  {
    ValUpdate(s, i + 1, t[i + 1]);
    ValUpdate(s[i + 1 := t[i + 1]], i, t[i]);
    WeightStep(i, q as int);
    hide Val16;
    hide Weight;
    assert s[i] as int == 0x1_0000 * q as int + t[i] as int;
    WeightMul(i, t[i] as int - s[i] as int, q as int);
  }

  lemma {:induction false} WeightStep(i: nat, q: int)
    ensures Weight(i + 1) * q == Weight(i) * (0x1_0000 * q)
  {
  }

  lemma {:induction false} WeightMul(i: nat, d: int, q: int)
    requires d == -(0x1_0000 * q)
    ensures Weight(i) * d == -(Weight(i) * (0x1_0000 * q))
  {
  }

  lemma {:induction false} WrapCarry(s: seq<i64>, q: i64, t: seq<i64>)
    requires |s| == |t| == 16 && q == s[15] / 0x1_0000
    requires t[0] as int == s[0] as int + 38 * q as int && t[15] == s[15] % 0x1_0000
    requires t == s[0 := t[0]][15 := t[15]]
    requires forall k | 0 <= k < 15 :: 0 <= s[k] <= 0xffff
    ensures Val16(s) / R256 == q as int
    ensures Val16(t) == Val16(s) - q as int * (R256 - 38)
  {
    hide Val16;
    hide Weight;
    var d := s[15 := t[15]];
    ValUpdate(s, 15, t[15]);
    ValRange(d);
    WeightStep(15, q as int);
    Weight16();
    LowRest(s[15], q);
    WeightMul(15, t[15] as int - s[15] as int, q as int);
    assert Val16(d) == Val16(s) - R256 * q as int;
    QuotientIs(Val16(s), q as int, Val16(d));
    assert t == d[0 := t[0]];
    ValUpdate(d, 0, t[0]);
    WeightZero();
    Recombine(Val16(t), Val16(d), Val16(s), q as int);
  }

  lemma {:induction false} LowRest(x: i64, q: i64)
    requires q == x / 0x1_0000
    ensures (x % 0x1_0000) as int - x as int == -(0x1_0000 * q as int)
  {
  }

  lemma {:induction false} QuotientIs(v: int, q: int, r: int)
    requires v == R256 * q + r && 0 <= r < R256
    ensures v / R256 == q
  {
    DivModUnique(v, R256, q, r);
  }

  lemma {:induction false} WeightZero()
    ensures Weight(0) == 1
  {
  }

  lemma {:induction false} Recombine(t: int, d: int, s: int, q: int)
    requires t == d + 38 * q && d == s - R256 * q
    ensures t == s - q * (R256 - 38)
  {
  }

  // ---------- bounds

  /** What two carries leave. */
  predicate Reduced(s: seq<i64>) {
    |s| == 16 && -38 <= s[0] <= 0x1_0025 && forall k | 1 <= k < 16 :: 0 <= s[k] <= 0xffff
  }

  /** What a sum or difference of two reduced elements may hold. */
  predicate Loose16(s: seq<i64>) {
    |s| == 16 && forall k | 0 <= k < 16 :: -0x400_0000 <= s[k] <= 0x400_0000
  }

  /** Two carries reduce anything below 2^62. */
  method CarryTwice(o: array<i64>)
    requires o.Length == 16
    requires forall k | 0 <= k < 16 :: -0x4000_0000_0000_0000 <= o[k] <= 0x4000_0000_0000_0000
    modifies o
    ensures Reduced(o[..]) && Cong(Val16(o[..]), Val16(old(o[..])))
  {
    hide Val16;
    hide Weight;
    hide Cong;
    ghost var v := Val16(o[..]);
    Carry(o);
    ghost var w := Val16(o[..]);
    CarriedRange(o[..], v / R256);
    SmallQuotient(w);
    Carry(o);
    CarryCong(v, w);
    CarryCong(w, Val16(o[..]));
    CongTrans(Val16(o[..]), w, v);
  }

  lemma {:induction false} CarryCong(v: int, w: int)
    requires w == v - v / R256 * (R256 - 38)
    ensures Cong(w, v)
  {
    CongMultiple(w, v, -(v / R256) * 2);
  }

  /** After one carry the value is at most a little outside [0, 2^256). */
  lemma {:induction false} CarriedRange(s: seq<i64>, c: int)
    requires |s| == 16 && 0 <= s[0] as int - 38 * c <= 0xffff && -0x8000_0000_0000 <= c <= 0x8000_0000_0000
    requires forall k | 1 <= k < 16 :: 0 <= s[k] <= 0xffff
    ensures -0x100_0000_0000_0000 <= Val16(s) < R256 + 0x100_0000_0000_0000
  {
    var d := s[0 := (s[0] as int - 38 * c) as i64];
    ValUpdate(s, 0, d[0]);
    ValRange(d);
    Weight16();
    assert Weight(0) == 1;
    hide Val16;
    hide Weight;
  }

  lemma {:induction false} SmallQuotient(w: int)
    requires -0x100_0000_0000_0000 <= w < R256 + 0x100_0000_0000_0000
    ensures -1 <= w / R256 <= 1
  {
  }

  // ---------- products

  function LimbProduct(x: i64, y: i64): (r: i64)
    requires -0x400_0000 <= x <= 0x400_0000 && -0x400_0000 <= y <= 0x400_0000
    ensures r as int == x as int * y as int && -0x10_0000_0000_0000 <= r <= 0x10_0000_0000_0000
  {
    ProductBound(x as int, y as int);
    x * y
  }

  lemma {:induction false} ProductBound(x: int, y: int)
    requires -0x400_0000 <= x <= 0x400_0000 && -0x400_0000 <= y <= 0x400_0000
    ensures -0x10_0000_0000_0000 <= x * y <= 0x10_0000_0000_0000
  {
    var p, q := if x < 0 then -x else x, if y < 0 then -y else y;
    NatProduct(p, q, 0x400_0000);
    assert x * y == p * q || x * y == -(p * q);
  }

  lemma {:induction false} NatProduct(p: nat, q: nat, m: nat)
    requires p <= m && q <= m
    ensures 0 <= p * q <= m * m
  {
    assert p * q <= m * q;
    assert m * q <= m * m;
  }

  /** The first i rows of the schoolbook product. */
  ghost function Rows(a: seq<i64>, b: seq<i64>, i: nat): int
    requires i <= |a|
  {
    Val16(a[..i]) * Val16(b)
  }

  /** The first j terms of row i. */
  ghost function Row(a: seq<i64>, b: seq<i64>, i: nat, j: nat): int
    requires i < |a| && j <= |b|
  {
    Weight(i) * (a[i] as int * Val16(b[..j]))
  }

  lemma {:induction false} WeightAdd(i: nat, j: nat)
    ensures Weight(i + j) == Weight(i) * Weight(j)
  {
    if i > 0 {
      WeightAdd(i - 1, j);
      assert Weight(i) * Weight(j) == 0x1_0000 * (Weight(i - 1) * Weight(j));
    }
  }

  lemma {:induction false} ValSnoc(s: seq<i64>, k: nat)
    requires k < |s|
    ensures Val16(s[..k + 1]) == Val16(s[..k]) + Weight(k) * s[k] as int
  {
    assert s[..k + 1] == s[..k] + [s[k]];
    ValAppend(s[..k], [s[k]]);
    assert Val16([s[k]]) == s[k] as int;
  }

  lemma {:induction false} RowStep(a: seq<i64>, b: seq<i64>, i: nat, j: nat)
    requires i < |a| && j < |b|
    ensures Row(a, b, i, j + 1) == Row(a, b, i, j) + Weight(i + j) * (a[i] as int * b[j] as int)
  {
    ValSnoc(b, j);
    WeightAdd(i, j);
    hide Val16;
    hide Weight;
    RowAlgebra(Weight(i), Weight(j), a[i] as int, b[j] as int, Val16(b[..j]));
  }

  lemma {:induction false} RowAlgebra(w: int, u: int, x: int, y: int, v: int)
    ensures w * (x * (v + u * y)) == w * (x * v) + w * u * (x * y)
  {
    assert x * (v + u * y) == x * v + u * (x * y);
    assert w * (u * (x * y)) == w * u * (x * y);
  }

  lemma {:induction false} RowsStep(a: seq<i64>, b: seq<i64>, i: nat)
    requires i < |a|
    ensures Rows(a, b, i + 1) == Rows(a, b, i) + Row(a, b, i, |b|) && Row(a, b, i, 0) == 0
  {
    ValSnoc(a, i);
    assert b[..|b|] == b && Val16(b[..0]) == 0;
    hide Val16;
    hide Weight;
    assert (Val16(a[..i]) + Weight(i) * a[i] as int) * Val16(b)
        == Val16(a[..i]) * Val16(b) + Weight(i) * (a[i] as int * Val16(b));
  }

  /** The double loop of multmod: t becomes the 31-limb product. */
  method Schoolbook(t: array<i64>, a: array<i64>, b: array<i64>)
    requires t.Length == 31 && t != a && t != b && Loose16(a[..]) && Loose16(b[..])
    requires forall k | 0 <= k < 31 :: t[k] == 0
    modifies t
    ensures Val16(t[..]) == Val16(a[..]) * Val16(b[..])
    ensures forall k | 0 <= k < 31 :: -0x100_0000_0000_0000 <= t[k] <= 0x100_0000_0000_0000
  {
    hide Val16;
    hide Weight;
    hide Row;
    ghost var x, y := a[..], b[..];
    RowsStart(x, y, t[..]);
    hide Rows;
    for i := 0 to 16
      invariant a[..] == x && b[..] == y
      invariant Val16(t[..]) == Rows(x, y, i)
      invariant forall k | 0 <= k < 31 :: -0x10_0000_0000_0000 * i <= t[k] as int <= 0x10_0000_0000_0000 * i
    {
      RowsStep(x, y, i);
      for j := 0 to 16
        invariant a[..] == x && b[..] == y
        invariant Val16(t[..]) == Rows(x, y, i) + Row(x, y, i, j)
        invariant forall k | 0 <= k < i + j ::
          -0x10_0000_0000_0000 * (i + 1) <= t[k] as int <= 0x10_0000_0000_0000 * (i + 1)
        invariant forall k | i + j <= k < 31 ::
          -0x10_0000_0000_0000 * i <= t[k] as int <= 0x10_0000_0000_0000 * i
      {
        ghost var s := t[..];
        assert a[i] == x[i] && b[j] == y[j];
        var p := LimbProduct(a[i], b[j]);
        t[i + j] := t[i + j] + p;
        assert t[..] == s[i + j := s[i + j] + p];
        ValUpdate(s, i + j, s[i + j] + p);
        RowStep(x, y, i, j);
      }
    }
    assert x[..16] == x;
    RowsAll(x, y);
  }

  lemma {:induction false} RowsStart(a: seq<i64>, b: seq<i64>, t: seq<i64>)
    requires forall k | 0 <= k < |t| :: t[k] == 0
    ensures Val16(t) == Rows(a, b, 0)
  {
    ValZero(t);
    assert Val16(a[..0]) == 0;
  }

  lemma {:induction false} RowsAll(a: seq<i64>, b: seq<i64>)
    ensures Rows(a, b, |a|) == Val16(a) * Val16(b)
  {
    assert a[..|a|] == a;
  }

  lemma {:induction false} ValZero(t: seq<i64>)
    requires forall k | 0 <= k < |t| :: t[k] == 0
    ensures Val16(t) == 0
  {
    if t != [] {
      ValZero(t[1..]);
    }
  }

  /** Limb-wise o = s + c * h. */
  lemma {:induction false} ValLinear(o: seq<i64>, s: seq<i64>, c: int, h: seq<i64>)
    requires |o| == |s| == |h| && forall k | 0 <= k < |o| :: o[k] as int == s[k] as int + c * h[k] as int
    ensures Val16(o) == Val16(s) + c * Val16(h)
  {
    if o != [] {
      ValLinear(o[1..], s[1..], c, h[1..]);
      var v := Val16(h[1..]);
      assert c * (h[0] as int + 0x1_0000 * v) == c * h[0] as int + 0x1_0000 * (c * v);
    }
  }

  /** Folding limbs 16 to 30 back with weight 38 keeps the residue. */
  lemma {:induction false} FoldCong(t: seq<i64>, o: seq<i64>)
    requires |t| == 31 && |o| == 16 && o[15] == t[15]
    requires forall k | 0 <= k < 15 :: o[k] as int == t[k] as int + 38 * t[k + 16] as int
    ensures Cong(Val16(o), Val16(t))
  {
    hide Val16;
    hide Weight;
    hide Cong;
    var lo, hi := t[..16], t[16..];
    assert t == lo + hi;
    ValAppend(lo, hi);
    ValAppend(hi, [0]);
    ValZero([0]);
    ValLinear(o, lo, 38, hi + [0]);
    Weight16();
    FoldValue(Val16(t), Val16(o), Val16(lo), Val16(hi));
  }

  lemma {:induction false} FoldValue(v: int, w: int, lo: int, hi: int)
    requires v == lo + R256 * hi && w == lo + 38 * hi
    ensures Cong(w, v)
  {
    CongMultiple(w, v, -2 * hi);
  }

  /** The second loop of multmod and the copy of the low limbs into o. */
  method FoldProduct(o: array<i64>, t: array<i64>)
    requires o.Length == 16 && t.Length == 31 && o != t
    requires forall k | 0 <= k < 31 :: -0x100_0000_0000_0000 <= t[k] <= 0x100_0000_0000_0000
    modifies o, t
    ensures Cong(Val16(o[..]), Val16(old(t[..])))
    ensures forall k | 0 <= k < 16 :: -0x2700_0000_0000_0000 <= o[k] <= 0x2700_0000_0000_0000
  {
    hide Val16;
    hide Cong;
    for i := 0 to 15
      invariant forall k | 15 <= k < 31 :: t[k] == old(t[k])
      invariant forall k | i <= k < 15 :: t[k] == old(t[k])
      invariant forall k | 0 <= k < i :: t[k] as int == old(t[k]) as int + 38 * old(t[k + 16]) as int
    {
      t[i] := t[i] + 38 * t[i + 16];
    }
    forall k | 0 <= k < 16 { o[k] := t[k]; }
    FoldCong(old(t[..]), o[..]);
  }

  /** multmod: o may be a or b. */
  method MultModLimbs(o: array<i64>, a: array<i64>, b: array<i64>)
    requires o.Length == 16 && Loose16(a[..]) && Loose16(b[..])
    modifies o
    ensures Reduced(o[..]) && Cong(Val16(o[..]), Val16(old(a[..])) * Val16(old(b[..])))
  {
    hide Val16;
    hide Cong;
    ghost var v := Val16(a[..]) * Val16(b[..]);
    var t := new i64[31](_ => 0);
    Schoolbook(t, a, b);
    FoldProduct(o, t);
    ghost var w := Val16(o[..]);
    CarryTwice(o);
    CongTrans(Val16(o[..]), w, v);
  }
}
