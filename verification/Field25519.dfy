/** Arithmetic modulo 2^255 - 19 and the X25519 function of section 5 of
    RFC 7748, on integers and byte strings only. Both implementations of the
    repository are compared with this module. */
module Field25519 {
  import opened Bits

  const P: int := 57896044618658097711785492504343953926634992332820282019728792003956564819949

  /** (A - 2) / 4 for A = 486662, the constant of the RFC's ladder step. */
  const A24: int := 121665

  lemma {:induction false} PValue()
    ensures Pow2(256) == 2 * (P + 19) && Pow2(255) == P + 19
  {
    Pow2Square(4, 0x10);
    Pow2Square(8, 0x100);
    Pow2Square(16, 0x1_0000);
    Pow2Square(32, 0x1_0000_0000);
    Pow2Square(64, 0x1_0000_0000_0000_0000);
    Pow2Square(128, 0x1_0000_0000_0000_0000_0000_0000_0000_0000);
  }

  lemma {:induction false} Pow2Square(n: nat, v: nat)
    requires Pow2(n) == v
    ensures Pow2(2 * n) == v * v
  {
    Pow2Add(n, n);
  }

  /** Equality of residues. */
  predicate Cong(a: int, b: int) {
    a % P == b % P
  }

  lemma {:induction false} CongMultiple(a: int, b: int, k: int)
    requires a == b + k * P
    ensures Cong(a, b)
  {
  }

  lemma {:induction false} CongAdd(a: int, b: int, c: int, d: int)
    requires Cong(a, c) && Cong(b, d)
    ensures Cong(a + b, c + d) && Cong(a - b, c - d)
  {
    CongMultiple(a + b, c + d, a / P - c / P + (b / P - d / P));
    CongMultiple(a - b, c - d, a / P - c / P - (b / P - d / P));
  }

  lemma {:induction false} CongMul(a: int, b: int, c: int, d: int)
    requires Cong(a, c) && Cong(b, d)
    ensures Cong(a * b, c * d)
  {
    var k, l := a / P - c / P, b / P - d / P;
    assert a - c == k * P && b - d == l * P;
    calc {
      a * b - c * d;
      a * (b - d) + (a - c) * d;
      a * (l * P) + k * P * d;
      (a * l + k * d) * P;
    }
    CongMultiple(a * b, c * d, a * l + k * d);
  }

  function FAdd(a: int, b: int): int { (a + b) % P }

  function FSub(a: int, b: int): int { (a - b) % P }

  function FMul(a: int, b: int): int { (a * b) % P }

  function FPow(z: int, e: nat): int {
    if e == 0 then 1 else FMul(z, FPow(z, e - 1))
  }

  lemma {:induction false} CongTrans(a: int, b: int, c: int)
    requires Cong(a, b) && Cong(b, c)
    ensures Cong(a, c)
  {
  }

  lemma {:induction false} FMulCong(a: int, b: int)
    ensures Cong(FMul(a, b), a * b) && Cong(a * b, FMul(a, b))
  {
  }

  lemma {:induction false} MulAssoc(a: int, b: int, c: int)
    ensures a * b * c == a * (b * c)
  {
  }

  lemma {:induction false} CongRefl(a: int)
    ensures Cong(a, a)
  {
  }

  lemma {:induction false} PowAdd(z: int, d: nat, e: nat)
    ensures Cong(FPow(z, d) * FPow(z, e), FPow(z, d + e))
  {
    if d > 0 {
      var x, y, w := FPow(z, d - 1), FPow(z, e), FPow(z, d - 1 + e);
      assert FPow(z, d) == FMul(z, x) && FPow(z, d + e) == FMul(z, w);
      PowAdd(z, d - 1, e);
      PowAddStep(z, x, y, w);
    } else {
      assert FPow(z, 0) == 1;
    }
  }

  lemma {:induction false} PowAddStep(z: int, x: int, y: int, w: int)
    requires Cong(x * y, w)
    ensures Cong(FMul(z, x) * y, FMul(z, w))
  {
    FMulCong(z, x);
    FMulCong(z, w);
    CongRefl(z);
    CongRefl(y);
    hide FMul;
    hide Cong;
    CongMul(z, x * y, z, w);
    CongMul(FMul(z, x), y, z * x, y);
    MulAssoc(z, x, y);
    CongTrans(FMul(z, x) * y, z * x * y, z * w);
    CongTrans(FMul(z, x) * y, z * w, FMul(z, w));
  }

  // ---------- X25519

  /** The ladder's two projective points. */
  datatype Points = Points(x2: int, z2: int, x3: int, z3: int)

  function Swap(s: Points): Points {
    Points(s.x3, s.z3, s.x2, s.z2)
  }

  function CondSwap(b: bool, s: Points): Points {
    if b then Swap(s) else s
  }

  /** One step of the RFC's loop body, after the swap. */
  function LadderStep(x1: int, s: Points): Points {
    var a := FAdd(s.x2, s.z2);
    var aa := FMul(a, a);
    var b := FSub(s.x2, s.z2);
    var bb := FMul(b, b);
    var e := FSub(aa, bb);
    var c := FAdd(s.x3, s.z3);
    var d := FSub(s.x3, s.z3);
    var da := FMul(d, a);
    var cb := FMul(c, b);
    var sum := FAdd(da, cb);
    var diff := FSub(da, cb);
    Points(FMul(aa, bb), FMul(e, FAdd(aa, FMul(A24, e))),
           FMul(sum, sum), FMul(x1, FMul(diff, diff)))
  }

  /** The RFC's loop after the scalar bits 254 down to t: the points and the
      pending swap flag. */
  function RfcLadder(x1: int, k: nat, t: nat): (Points, bool)
    decreases 255 - t
  {
    if t >= 255 then (Points(1, 0, x1, 1), false)
    else
      var (s, swap) := RfcLadder(x1, k, t + 1);
      (LadderStep(x1, CondSwap(swap != Bit(k, t), s)), Bit(k, t))
  }

  /** The plain Montgomery ladder, which swaps before and after every step. */
  function SimpleLadder(x1: int, k: nat, t: nat): Points
    decreases 255 - t
  {
    if t >= 255 then Points(1, 0, x1, 1)
    else
      var b := Bit(k, t);
      CondSwap(b, LadderStep(x1, CondSwap(b, SimpleLadder(x1, k, t + 1))))
  }

  /** Merging neighbouring swaps does not change the points. */
  lemma {:induction false} DelayedSwaps(x1: int, k: nat, t: nat)
    ensures var (s, swap) := RfcLadder(x1, k, t);
            CondSwap(swap, s) == SimpleLadder(x1, k, t)
    decreases 255 - t
  {
    if t < 255 {
      DelayedSwaps(x1, k, t + 1);
    }
  }

  function Clamp(k: seq<u8>): (r: seq<u8>)
    requires |k| == 32
    ensures |r| == 32
  {
    AndLe(k[0] as nat, 248);
    AndLe(k[31] as nat, 127);
    OrBound(And(k[31] as nat, 127), 64, 7);
    k[0 := And(k[0] as nat, 248) as u8][31 := Or(And(k[31] as nat, 127), 64) as u8]
  }

  /** Decoding a u-coordinate ignores its top bit and accepts values at or above P. */
  function DecodeCoordinate(u: seq<u8>): int
    requires |u| == 32
  {
    DecodeLittleEndian(u) % Pow2(255) % P
  }

  /** The X25519 function: section 5 of RFC 7748. */
  function X25519(k: seq<u8>, u: seq<u8>): (out: seq<u8>)
    requires |k| == 32 && |u| == 32
    ensures |out| == 32
  {
    var (s, swap) := RfcLadder(DecodeCoordinate(u), DecodeLittleEndian(Clamp(k)), 0);
    var r := CondSwap(swap, s);
    EncodeLittleEndian(FMul(r.x2, FPow(r.z2, P - 2)), 32)
  }
}
