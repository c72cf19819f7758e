/** Bitwise operations on natural numbers, as the C and Go sources use them on
    fixed-width words. Each operation is defined on the binary digits, so that
    masks, shifts and xor keep their textbook meaning at every width. */
module Bits {

  newtype u8 = x: int | 0 <= x < 0x100
  newtype u32 = x: int | 0 <= x < 0x1_0000_0000
  newtype u64 = x: int | 0 <= x < 0x1_0000_0000_0000_0000

  function Pow2(n: nat): (p: nat)
    ensures p >= 1
  {
    if n == 0 then 1 else 2 * Pow2(n - 1)
  }

  /** Shift left. */
  function Shl(a: nat, n: nat): nat
    decreases n
  {
    if n == 0 then a else 2 * Shl(a, n - 1)
  }

  function And(a: nat, b: nat): nat
    decreases a
  {
    if a == 0 then 0
    else (if a % 2 == 1 && b % 2 == 1 then 1 else 0) + 2 * And(a / 2, b / 2)
  }

  function Or(a: nat, b: nat): nat
    decreases a + b
  {
    if a == 0 && b == 0 then 0
    else (if a % 2 == 1 || b % 2 == 1 then 1 else 0) + 2 * Or(a / 2, b / 2)
  }

  function Xor(a: nat, b: nat): nat
    decreases a + b
  {
    if a == 0 && b == 0 then 0
    else (if a % 2 == b % 2 then 0 else 1) + 2 * Xor(a / 2, b / 2)
  }

  /** Binary digit i of a, counted from the least significant end. */
  predicate Bit(a: nat, i: nat)
    decreases i
  {
    if i == 0 then a % 2 == 1 else Bit(a / 2, i - 1)
  }

  /** Find last set: the number of binary digits of a. */
  function Fls(a: nat): nat {
    if a == 0 then 0 else 1 + Fls(a / 2)
  }

  // ---------- unfolding by one digit

  lemma {:induction false} AndStep(a: nat, b: nat)
    ensures And(a, b) == (if a % 2 == 1 && b % 2 == 1 then 1 else 0) + 2 * And(a / 2, b / 2)
  {
  }

  lemma {:induction false} OrStep(a: nat, b: nat)
    ensures Or(a, b) == (if a % 2 == 1 || b % 2 == 1 then 1 else 0) + 2 * Or(a / 2, b / 2)
  {
  }

  lemma {:induction false} XorStep(a: nat, b: nat)
    ensures Xor(a, b) == (if a % 2 == b % 2 then 0 else 1) + 2 * Xor(a / 2, b / 2)
  {
  }

  // ---------- powers of two and division

  lemma {:induction false} Halve(a: nat, n: nat)
    requires n > 0
    ensures Pow2(n) * a == 2 * (Pow2(n - 1) * a)
  {
  }

  lemma {:induction false} Pow2Add(m: nat, n: nat)
    ensures Pow2(m + n) == Pow2(m) * Pow2(n)
  {
    if m > 0 {
      Pow2Add(m - 1, n);
      Halve(Pow2(n), m);
    }
  }

  lemma {:induction false} MulGap(x: int, y: int, d: int)
    requires x > y && d > 0
    ensures x * d >= y * d + d
  {
    assert x * d - (y + 1) * d == (x - y - 1) * d;
  }

  lemma {:induction false} DivModUnique(a: int, d: int, q: int, r: int)
    requires 0 <= r < d && a == q * d + r
    ensures a / d == q && a % d == r
  {
    var q', r' := a / d, a % d;
    assert a == q' * d + r';
    if q > q' { MulGap(q, q', d); }
    if q < q' { MulGap(q', q, d); }
  }

  lemma {:induction false} ModDouble(a: nat, q: nat)
    requires q >= 1
    ensures a % (2 * q) == a % 2 + 2 * (a / 2 % q)
  {
    var b := a / 2;
    var k, r := b / q, b % q;
    assert b == k * q + r;
    assert k * (2 * q) == 2 * (k * q);
    DivModUnique(a, 2 * q, k, 2 * r + a % 2);
  }

  lemma {:induction false} DivDouble(a: nat, q: nat)
    requires q >= 1
    ensures a / (2 * q) == a / 2 / q
  {
    var b := a / 2;
    var k, r := b / q, b % q;
    assert b == k * q + r;
    assert k * (2 * q) == 2 * (k * q);
    DivModUnique(a, 2 * q, k, 2 * r + a % 2);
  }

  // ---------- masks and shifts

  /** x & (2^n - 1) keeps the n low digits. */
  lemma {:induction false} AndMask(a: nat, n: nat)
    ensures And(a, Pow2(n) - 1) == a % Pow2(n)
    decreases n
  {
    if n == 0 {
      AndZero(a);
    } else {
      var q := Pow2(n - 1);
      assert Pow2(n) == 2 * q;
      hide Pow2;
      AndMask(a / 2, n - 1);
      AndStep(a, 2 * q - 1);
      hide And;
      assert (2 * q - 1) % 2 == 1 && (2 * q - 1) / 2 == q - 1;
      ModDouble(a, q);
    }
  }

  lemma {:induction false} AndZero(a: nat)
    ensures And(a, 0) == 0
  {
    if a > 0 { AndZero(a / 2); }
  }

  lemma {:induction false} AndCommutes(a: nat, b: nat)
    ensures And(a, b) == And(b, a)
    decreases a + b
  {
    AndStep(a, b);
    AndStep(b, a);
    if a + b > 0 { AndCommutes(a / 2, b / 2); }
    hide And;
  }

  lemma {:induction false} AndLe(a: nat, b: nat)
    ensures And(a, b) <= a && And(a, b) <= b
    decreases a
  {
    AndStep(a, b);
    if a > 0 { AndLe(a / 2, b / 2); }
    hide And;
  }

  lemma {:induction false} OrBound(a: nat, b: nat, n: nat)
    requires a < Shl(1, n) && b < Shl(1, n)
    ensures Or(a, b) < Shl(1, n)
    decreases n
  {
    OrStep(a, b);
    if n > 0 {
      OrBound(a / 2, b / 2, n - 1);
      hide Or;
    }
  }

  /** The low digits of an Or with a shifted word are untouched. */
  lemma {:induction false} OrHigh(lo: nat, hi: nat, b: nat, n: nat)
    requires lo < Shl(1, n)
    ensures Or(lo + Shl(hi, n), Shl(b, n)) == lo + Shl(Or(hi, b), n)
    decreases n
  {
    if n > 0 {
      var x, y := Shl(hi, n - 1), Shl(b, n - 1);
      assert Shl(hi, n) == 2 * x && Shl(b, n) == 2 * y;
      OrHigh(lo / 2, hi, b, n - 1);
      OrStep(lo + 2 * x, 2 * y);
      hide Or;
      assert (lo + 2 * x) / 2 == lo / 2 + x;
    }
  }

  /** Words whose set digits cannot meet are joined by addition. */
  lemma {:induction false} OrDisjoint(a: nat, b: nat, n: nat)
    requires a < Shl(1, n)
    ensures Or(a, Shl(b, n)) == a + Shl(b, n)
  {
    OrHigh(a, 0, b, n);
    ShlZero(n);
    OrZero(b);
    hide Or;
  }

  lemma {:induction false} ShlMul(a: nat, n: nat)
    ensures Shl(a, n) == Shl(1, n) * a
  {
    if n > 0 {
      ShlMul(a, n - 1);
      assert 2 * (Shl(1, n - 1) * a) == 2 * Shl(1, n - 1) * a;
    }
  }

  lemma {:induction false} ShlZero(n: nat)
    ensures Shl(0, n) == 0
  {
    if n > 0 { ShlZero(n - 1); }
  }

  lemma {:induction false} OrZero(b: nat)
    ensures Or(0, b) == b && Or(b, 0) == b
  {
    if b > 0 { OrZero(b / 2); }
  }

  // ---------- exclusive or

  lemma {:induction false} XorCommutes(a: nat, b: nat)
    ensures Xor(a, b) == Xor(b, a)
    decreases a + b
  {
    if a + b > 0 { XorCommutes(a / 2, b / 2); }
  }

  lemma {:induction false} XorZero(a: nat)
    ensures Xor(a, 0) == a && Xor(0, a) == a
  {
    if a > 0 { XorZero(a / 2); }
  }

  /** Applying the same difference twice restores the other word. */
  lemma {:induction false} XorCancels(a: nat, b: nat)
    ensures Xor(a, Xor(a, b)) == b
    decreases a + b
  {
    if a + b == 0 {
    } else {
      XorStep(a, b);
      XorStep(a, Xor(a, b));
      XorCancels(a / 2, b / 2);
      hide Xor;
      assert Xor(a, b) / 2 == Xor(a / 2, b / 2);
    }
  }

  lemma {:induction false} XorBound(a: nat, b: nat, n: nat)
    requires a < Pow2(n) && b < Pow2(n)
    ensures Xor(a, b) < Pow2(n)
    decreases n
  {
    if n > 0 {
      XorStep(a, b);
      XorBound(a / 2, b / 2, n - 1);
      hide Xor;
    }
  }

  /** Xor is zero exactly where the digits agree. */
  lemma {:induction false} XorBit(a: nat, b: nat, i: nat)
    ensures Bit(Xor(a, b), i) == (Bit(a, i) != Bit(b, i))
    decreases i
  {
    XorStep(a, b);
    hide Xor;
    if i > 0 {
      XorBit(a / 2, b / 2, i - 1);
      assert Xor(a, b) / 2 == Xor(a / 2, b / 2);
    }
  }

  // ---------- single digits

  /** The value a shift-and-mask test reads. */
  lemma {:induction false} BitIsShift(a: nat, i: nat)
    ensures Bit(a, i) <==> a / Pow2(i) % 2 == 1
    decreases i
  {
    if i > 0 {
      assert Pow2(i) == 2 * Pow2(i - 1);
      BitIsShift(a / 2, i - 1);
      hide Pow2;
      DivDouble(a, Pow2(i - 1));
    }
  }

  lemma {:induction false} BitZero(i: nat)
    ensures !Bit(0, i)
  {
    if i > 0 { BitZero(i - 1); }
  }

  /** Fls counts digits: everything at or above it is zero, the one below is set. */
  lemma {:induction false} FlsTop(a: nat)
    ensures forall i: nat :: i >= Fls(a) ==> !Bit(a, i)
    ensures a > 0 ==> Bit(a, Fls(a) - 1)
  {
    if a == 0 {
      forall i: nat ensures !Bit(0, i) { BitZero(i); }
    } else {
      FlsTop(a / 2);
      forall i: nat | i >= Fls(a) ensures !Bit(a, i) {
        assert !Bit(a / 2, i - 1);
      }
    }
  }

  lemma {:induction false} FlsBound(a: nat, n: nat)
    requires a < Pow2(n)
    ensures Fls(a) <= n
    decreases n
  {
    if a > 0 { FlsBound(a / 2, n - 1); }
  }

  lemma {:induction false} BitLow(a: nat, v: nat, i: nat, n: nat)
    requires i < n && a < Shl(1, n)
    ensures Bit(a + Shl(v, n), i) == Bit(a, i)
    decreases n
  {
    var x := Shl(v, n - 1);
    assert Shl(v, n) == 2 * x;
    if i > 0 {
      BitLow(a / 2, v, i - 1, n - 1);
      assert (a + 2 * x) / 2 == a / 2 + x;
    }
  }

  lemma {:induction false} BitHigh(a: nat, v: nat, i: nat, n: nat)
    requires a < Shl(1, n)
    ensures Bit(a + Shl(v, n), i + n) == Bit(v, i)
    decreases n
  {
    if n > 0 {
      var x := Shl(v, n - 1);
      assert Shl(v, n) == 2 * x;
      BitHigh(a / 2, v, i, n - 1);
      assert (a + 2 * x) / 2 == a / 2 + x;
    }
  }

  /** Setting one digit changes that digit and no other. */
  lemma {:induction false} OrSetsBit(a: nat, n: nat, i: nat)
    ensures Bit(Or(a, Pow2(n)), i) == (i == n || Bit(a, i))
    decreases i
  {
    var p := Pow2(n);
    OrStep(a, p);
    assert n > 0 ==> p / 2 == Pow2(n - 1) && p % 2 == 0;
    if i > 0 {
      if n > 0 {
        OrSetsBit(a / 2, n - 1, i - 1);
      } else {
        OrZero(a / 2);
      }
      hide Or;
      assert Or(a, p) / 2 == Or(a / 2, p / 2);
    }
  }

  // ---------- byte strings

  function DecodeLittleEndian(s: seq<u8>): nat {
    if s == [] then 0 else s[0] as nat + 256 * DecodeLittleEndian(s[1..])
  }

  function EncodeLittleEndian(v: nat, len: nat): (s: seq<u8>)
    ensures |s| == len
  {
    if len == 0 then [] else [(v % 256) as u8] + EncodeLittleEndian(v / 256, len - 1)
  }

  /** The only string of a given length that decodes to v is its encoding. */
  lemma {:induction false} EncodeUnique(s: seq<u8>)
    ensures EncodeLittleEndian(DecodeLittleEndian(s), |s|) == s
  {
    if s != [] {
      EncodeUnique(s[1..]);
      var v := DecodeLittleEndian(s[1..]);
      LowDigit(s[0] as nat, v);
      assert DecodeLittleEndian(s) == s[0] as nat + 256 * v;
      hide DecodeLittleEndian;
      assert EncodeLittleEndian(s[0] as nat + 256 * v, |s|) == [s[0]] + EncodeLittleEndian(v, |s| - 1);
      assert s == [s[0]] + s[1..];
    }
  }

  lemma {:induction false} LowDigit(d: nat, v: nat)
    requires d < 256
    ensures (d + 256 * v) % 256 == d && (d + 256 * v) / 256 == v
  {
  }

  lemma {:induction false} DecodeBit(s: seq<u8>, i: nat)
    requires i < 8 * |s|
    ensures Bit(DecodeLittleEndian(s), i) == Bit(s[i / 8] as nat, i % 8)
    decreases |s|
  {
    var v := DecodeLittleEndian(s[1..]);
    assert DecodeLittleEndian(s) == s[0] as nat + Shl(v, 8);
    hide DecodeLittleEndian;
    if i < 8 {
      BitLow(s[0] as nat, v, i, 8);
    } else {
      DecodeBit(s[1..], i - 8);
      BitHigh(s[0] as nat, v, i - 8, 8);
      hide Bit;
      assert s[1..][(i - 8) / 8] == s[i / 8] && (i - 8) % 8 == i % 8;
    }
  }

  lemma {:induction false} DecodeBound(s: seq<u8>)
    ensures DecodeLittleEndian(s) < Pow2(8 * |s|)
  {
    if s != [] {
      DecodeBound(s[1..]);
      Pow2Add(8, 8 * |s[1..]|);
      assert Pow2(8) == 256;
      hide Pow2;
      assert 8 + 8 * |s[1..]| == 8 * |s|;
    }
  }

  lemma {:induction false} EncodeBit(v: nat, len: nat, i: nat)
    requires i < 8 * len
    ensures Bit(EncodeLittleEndian(v, len)[i / 8] as nat, i % 8) == Bit(v, i)
    decreases len
  {
    var s := EncodeLittleEndian(v, len);
    var hi, lo := v / 256, v % 256;
    assert v == lo + Shl(hi, 8);
    if i < 8 {
      BitLow(lo, hi, i, 8);
      assert s[0] as nat == lo;
    } else {
      EncodeBit(hi, len - 1, i - 8);
      BitHigh(lo, hi, i - 8, 8);
      hide Bit;
      assert (i - 8) / 8 == i / 8 - 1 && (i - 8) % 8 == i % 8;
      assert s[i / 8] == EncodeLittleEndian(hi, len - 1)[i / 8 - 1];
    }
  }

  lemma {:induction false} AndBit(a: nat, b: nat, i: nat)
    ensures Bit(And(a, b), i) == (Bit(a, i) && Bit(b, i))
    decreases i
  {
    AndStep(a, b);
    hide And;
    if i > 0 {
      AndBit(a / 2, b / 2, i - 1);
      assert And(a, b) / 2 == And(a / 2, b / 2);
    }
  }
}
