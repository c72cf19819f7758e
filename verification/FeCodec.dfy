/** Byte strings and canonical form of the ten-limb field elements:
    fe_frombytes_impl, fe_freeze and fe_tobytes. */
module FeCodec {
  import opened Bits
  import opened Field25519
  import opened Fe10

  // ---------- from bytes

  /** get_unaligned_le32 */
  function Le32(s: seq<u8>, i: nat): (w: u32)
    requires i + 4 <= |s|
  {
    s[i] as u32 + 0x100 * s[i + 1] as u32 + 0x1_0000 * s[i + 2] as u32 + 0x100_0000 * s[i + 3] as u32
  }

  /** lo | (hi << n), with k == 2^n, where the two parts do not overlap. */
  function Join(lo: u32, hi: u32, ghost n: nat, k: nat): (r: nat)
    requires k == Shl(1, n) && lo as nat < k
    ensures r == lo as nat + k * hi as nat
  {
    OrDisjoint(lo as nat, hi as nat, n);
    ShlMul(hi as nat, n);
    Or(lo as nat, k * hi as nat)
  }

  /** Words masked with 2^k - 1 are written as remainders, shifts to the right as quotients. */
  function FromWords(a: seq<u32>): (h: seq<u32>)
    requires |a| == 8
    ensures |h| == 10
  {
    [a[0] % 0x400_0000,
     Join(a[0] / 0x400_0000, a[1] % 0x8_0000, 6, 0x40) as u32,
     Join(a[1] / 0x8_0000, a[2] % 0x2000, 13, 0x2000) as u32,
     Join(a[2] / 0x2000, a[3] % 0x40, 19, 0x8_0000) as u32,
     a[3] / 0x40,
     a[4] % 0x200_0000,
     Join(a[4] / 0x200_0000, a[5] % 0x8_0000, 7, 0x80) as u32,
     Join(a[5] / 0x8_0000, a[6] % 0x1000, 13, 0x2000) as u32,
     Join(a[6] / 0x1000, a[7] % 0x40, 20, 0x10_0000) as u32,
     a[7] / 0x40 % 0x200_0000]
  }

  function FromBytes(s: seq<u8>): (h: seq<u32>)
    requires |s| == 32
    ensures |h| == 10
  {
    FromWords(Words(s))
  }

  lemma {:induction false} FromWordsTight(a: seq<u32>)
    requires |a| == 8
    ensures Bounded(FromWords(a), 0x3ff_ffff, 0x1ff_ffff)
  {
    hide Join;
  }

  ghost function WordsVal(a: seq<u32>): int
    requires |a| == 8
  {
    a[0] as int + 0x1_0000_0000 * a[1] as int + V2 * a[2] as int + V3 * a[3] as int + V4 * a[4] as int
    + V5 * a[5] as int + V6 * a[6] as int + V7 * a[7] as int
  }

  const V2: int := 0x1_0000_0000_0000_0000
  const V3: int := 0x1_0000_0000_0000_0000_0000_0000
  const V4: int := 0x1_0000_0000_0000_0000_0000_0000_0000_0000
  const V5: int := 0x1_0000_0000_0000_0000_0000_0000_0000_0000_0000_0000
  const V6: int := 0x1_0000_0000_0000_0000_0000_0000_0000_0000_0000_0000_0000_0000
  const V7: int := 0x1_0000_0000_0000_0000_0000_0000_0000_0000_0000_0000_0000_0000_0000_0000

  lemma {:induction false} FromWordsLimbs(a: seq<u32>)
    requires |a| == 8
    ensures var h := FromWords(a);
            && h[0] as int == Rem(a[0] as int, 0x400_0000)
            && h[1] as int == Quo(a[0] as int, 0x400_0000) + 0x40 * Rem(a[1] as int, 0x8_0000)
            && h[2] as int == Quo(a[1] as int, 0x8_0000) + 0x2000 * Rem(a[2] as int, 0x2000)
            && h[3] as int == Quo(a[2] as int, 0x2000) + 0x8_0000 * Rem(a[3] as int, 0x40)
            && h[4] as int == Quo(a[3] as int, 0x40)
            && h[5] as int == Rem(a[4] as int, 0x200_0000)
            && h[6] as int == Quo(a[4] as int, 0x200_0000) + 0x80 * Rem(a[5] as int, 0x8_0000)
            && h[7] as int == Quo(a[5] as int, 0x8_0000) + 0x2000 * Rem(a[6] as int, 0x1000)
            && h[8] as int == Quo(a[6] as int, 0x1000) + 0x10_0000 * Rem(a[7] as int, 0x40)
            && h[9] as int == Rem(Quo(a[7] as int, 0x40), 0x200_0000)
  {
    hide Join;
  }

  lemma {:induction false} FromWordsValue(a: seq<u32>)
    requires |a| == 8
    ensures WordsVal(a) == Val(FromWords(a)) + W10 * Quo(Quo(a[7] as int, 0x40), 0x200_0000)
  {
    hide Quo;
    hide Rem;
    hide FromWords;
    FromWordsLimbs(a);
    Pass(a[0] as int, 0x400_0000, 1, W1);
    Pass(a[1] as int, 0x8_0000, 0x1_0000_0000, W2);
    Pass(a[2] as int, 0x2000, V2, W3);
    Pass(a[3] as int, 0x40, V3, W4);
    Pass(a[4] as int, 0x200_0000, V4, W6);
    Pass(a[5] as int, 0x8_0000, V5, W7);
    Pass(a[6] as int, 0x1000, V6, W8);
    Pass(a[7] as int, 0x40, V7, W9);
    Pass(Quo(a[7] as int, 0x40), 0x200_0000, W9, W10);
  }

  lemma {:induction false} DecodeWord(s: seq<u8>)
    requires |s| >= 4
    ensures DecodeLittleEndian(s) == Le32(s, 0) as int + 0x1_0000_0000 * DecodeLittleEndian(s[4..])
  {
    assert s[1..][1..] == s[2..] && s[2..][1..] == s[3..] && s[3..][1..] == s[4..];
    assert DecodeLittleEndian(s) == s[0] as int + 256 * DecodeLittleEndian(s[1..]);
    assert DecodeLittleEndian(s[1..]) == s[1] as int + 256 * DecodeLittleEndian(s[2..]);
    assert DecodeLittleEndian(s[2..]) == s[2] as int + 256 * DecodeLittleEndian(s[3..]);
    assert DecodeLittleEndian(s[3..]) == s[3] as int + 256 * DecodeLittleEndian(s[4..]);
  }

  lemma {:induction false} DecodeFrom(s: seq<u8>, i: nat)
    requires i + 4 <= |s|
    ensures DecodeLittleEndian(s[i..]) == Le32(s, i) as int + 0x1_0000_0000 * DecodeLittleEndian(s[i + 4..])
  {
    DecodeWord(s[i..]);
    assert s[i..][4..] == s[i + 4..];
  }

  function Words(s: seq<u8>): (a: seq<u32>)
    requires |s| == 32
    ensures |a| == 8
  {
    [Le32(s, 0), Le32(s, 4), Le32(s, 8), Le32(s, 12), Le32(s, 16), Le32(s, 20), Le32(s, 24), Le32(s, 28)]
  }

  lemma {:induction false} Horner(a: seq<u32>, d: int -> int)
    requires |a| == 8 && d(8) == 0
    requires forall i | 0 <= i < 8 :: d(i) == a[i] as int + 0x1_0000_0000 * d(i + 1)
    ensures d(0) == WordsVal(a)
  {
    assert d(7) == a[7] as int;
    assert d(6) == a[6] as int + 0x1_0000_0000 * d(7);
    assert d(5) == a[5] as int + 0x1_0000_0000 * d(6);
    assert d(4) == a[4] as int + 0x1_0000_0000 * d(5);
    assert d(3) == a[3] as int + 0x1_0000_0000 * d(4);
    assert d(2) == a[2] as int + 0x1_0000_0000 * d(3);
    assert d(1) == a[1] as int + 0x1_0000_0000 * d(2);
    assert d(0) == a[0] as int + 0x1_0000_0000 * d(1);
  }

  lemma {:induction false} DecodeWords(s: seq<u8>)
    requires |s| == 32
    ensures DecodeLittleEndian(s) == WordsVal(Words(s))
  {
    var a := Words(s);
    var d := (i: int) => if 0 <= i <= 8 then DecodeLittleEndian(s[4 * i..]) else 0;
    forall i | 0 <= i < 8 ensures d(i) == a[i] as int + 0x1_0000_0000 * d(i + 1) {
      DecodeFrom(s, 4 * i);
      hide *;
      assert a[i] == Le32(s, 4 * i) by { WordsAt(s, i); }
    }
    hide *;
    Horner(a, d) by { assert s[32..] == []; DecodeEmpty(); }
    assert s[0..] == s;
  }

  lemma {:induction false} WordsAt(s: seq<u8>, i: nat)
    requires |s| == 32 && i < 8
    ensures Words(s)[i] == Le32(s, 4 * i)
  {
  }

  lemma {:induction false} DecodeEmpty()
    ensures DecodeLittleEndian([]) == 0
  {
  }

  lemma {:induction false} LimbRange(h: seq<u32>)
    requires Bounded(h, 0x3ff_ffff, 0x1ff_ffff)
    ensures 0 <= Val(h) < W10
  {
  }

  lemma {:induction false} DropTopBit(v: nat, x: int, q: int)
    requires v == x + W10 * q && 0 <= x < W10
    ensures Cong(x, v % Pow2(255) % P)
  {
    PValue();
    assert Pow2(255) == W10;
    hide Pow2;
    DivModUnique(v, W10, q, x);
  }

  /** fe_frombytes: a tight representative of the coordinate the RFC decodes. */
  lemma {:induction false} FromBytesCorrect(s: seq<u8>)
    requires |s| == 32
    ensures Tight(FromBytes(s)) && Cong(Val(FromBytes(s)), DecodeCoordinate(s))
  {
    hide FromWords;
    hide Words;
    hide Val;
    hide Quo;
    hide WordsVal;
    hide Cong;
    hide Pow2;
    hide DecodeLittleEndian;
    var a := Words(s);
    var h := FromWords(a);
    FromWordsTight(a);
    DecodeWords(s);
    FromWordsValue(a);
    LimbRange(h);
    DropTopBit(DecodeLittleEndian(s), Val(h), Quo(Quo(a[7] as int, 0x40), 0x200_0000));
  }

  // ---------- canonical form

  /** subborrow_u26: the difference wraps modulo 2^32, its low bits are kept and its
      top bit is the borrow. */
  function SubBorrow26(c: u32, a: u32, b: u32): (r: (u32, u32))
    requires c <= 1 && b < 0x400_0000 && a as int - b as int < 0x400_0000
    ensures r.0 < 0x400_0000 && r.1 <= 1
    ensures r.0 as int - 0x400_0000 * r.1 as int == a as int - b as int - c as int
  {
    var x := ((a as int - b as int - c as int) % 0x1_0000_0000) as u32;
    (x % 0x400_0000, x / 0x8000_0000)
  }

  /** addcarryx_u26 */
  function AddCarry26(c: u32, a: u32, b: u32): (r: (u32, u32))
    requires c <= 1 && a < 0x400_0000 && b < 0x400_0000
    ensures r.0 < 0x400_0000 && r.1 <= 1
    ensures r.0 as int + 0x400_0000 * r.1 as int == a as int + b as int + c as int
  {
    var x := a + b + c;
    (x % 0x400_0000, x / 0x400_0000 % 2)
  }

  /** subborrow_u25: the difference wraps modulo 2^32, its low bits are kept and its
      top bit is the borrow. */
  function SubBorrow25(c: u32, a: u32, b: u32): (r: (u32, u32))
    requires c <= 1 && b < 0x200_0000 && a as int - b as int < 0x200_0000
    ensures r.0 < 0x200_0000 && r.1 <= 1
    ensures r.0 as int - 0x200_0000 * r.1 as int == a as int - b as int - c as int
  {
    var x := ((a as int - b as int - c as int) % 0x1_0000_0000) as u32;
    (x % 0x200_0000, x / 0x8000_0000)
  }

  /** addcarryx_u25 */
  function AddCarry25(c: u32, a: u32, b: u32): (r: (u32, u32))
    requires c <= 1 && a < 0x200_0000 && b < 0x200_0000
    ensures r.0 < 0x200_0000 && r.1 <= 1
    ensures r.0 as int + 0x200_0000 * r.1 as int == a as int + b as int + c as int
  {
    var x := a + b + c;
    (x % 0x200_0000, x / 0x200_0000 % 2)
  }

  lemma {:induction false} Pow2Word()
    ensures Pow2(32) == 0x1_0000_0000
  {
    Pow2Square(4, 0x10);
    Pow2Square(8, 0x100);
    Pow2Square(16, 0x1_0000);
  }

  lemma {:induction false} AndOnes(a: nat)
    requires a < 0x1_0000_0000
    ensures And(0xffff_ffff, a) == a
  {
    hide And;
    hide Pow2;
    Pow2Word();
    AndCommutes(0xffff_ffff, a);
    AndMask(a, 32);
  }

  /** cmovznz32, with its mask of all ones or all zeros. */
  function Cmovznz32(t: u32, z: u32, nz: u32): (r: u32)
    ensures r == if t != 0 then nz else z
  {
    var m: nat := if t != 0 then 0xffff_ffff else 0;
    AndOnes(z as nat);
    AndOnes(nz as nat);
    OrZero(z as nat);
    OrZero(nz as nat);
    Or(And(m, nz as nat), And(0xffff_ffff - m, z as nat)) as u32
  }

  function Masked(m: u32, c: u32): (r: u32)
    requires m == 0 || m == 0xffff_ffff
    ensures r == if m == 0 then 0 else c
  {
    AndOnes(c as nat);
    And(m as nat, c as nat) as u32
  }

  /** Subtract p limb by limb; the flag is the final borrow. */
  function SubP(a: seq<u32>): (r: (seq<u32>, u32))
    requires Tight(a)
    ensures Bounded(r.0, 0x3ff_ffff, 0x1ff_ffff) && r.1 <= 1
  {
    var r0 := SubBorrow26(0, a[0], 0x3ffffed);
    var r1 := SubBorrow25(r0.1, a[1], 0x1ffffff);
    var r2 := SubBorrow26(r1.1, a[2], 0x3ffffff);
    var r3 := SubBorrow25(r2.1, a[3], 0x1ffffff);
    var r4 := SubBorrow26(r3.1, a[4], 0x3ffffff);
    var r5 := SubBorrow25(r4.1, a[5], 0x1ffffff);
    var r6 := SubBorrow26(r5.1, a[6], 0x3ffffff);
    var r7 := SubBorrow25(r6.1, a[7], 0x1ffffff);
    var r8 := SubBorrow26(r7.1, a[8], 0x3ffffff);
    var r9 := SubBorrow25(r8.1, a[9], 0x1ffffff);
    ([r0.0, r1.0, r2.0, r3.0, r4.0, r5.0, r6.0, r7.0, r8.0, r9.0], r9.1)
  }

  /** Add p back where the mask is set; the final carry is dropped. */
  function AddP(a: seq<u32>, m: u32): (r: seq<u32>)
    requires Bounded(a, 0x3ff_ffff, 0x1ff_ffff) && (m == 0 || m == 0xffff_ffff)
    ensures Bounded(r, 0x3ff_ffff, 0x1ff_ffff)
  {
    var r0 := AddCarry26(0, a[0], Masked(m, 0x3ffffed));
    var r1 := AddCarry25(r0.1, a[1], Masked(m, 0x1ffffff));
    var r2 := AddCarry26(r1.1, a[2], Masked(m, 0x3ffffff));
    var r3 := AddCarry25(r2.1, a[3], Masked(m, 0x1ffffff));
    var r4 := AddCarry26(r3.1, a[4], Masked(m, 0x3ffffff));
    var r5 := AddCarry25(r4.1, a[5], Masked(m, 0x1ffffff));
    var r6 := AddCarry26(r5.1, a[6], Masked(m, 0x3ffffff));
    var r7 := AddCarry25(r6.1, a[7], Masked(m, 0x1ffffff));
    var r8 := AddCarry26(r7.1, a[8], Masked(m, 0x3ffffff));
    var r9 := AddCarry25(r8.1, a[9], Masked(m, 0x1ffffff));
    [r0.0, r1.0, r2.0, r3.0, r4.0, r5.0, r6.0, r7.0, r8.0, r9.0]
  }

  /** fe_freeze */
  function Freeze(a: seq<u32>): (r: seq<u32>)
    requires Tight(a)
    ensures Bounded(r, 0x3ff_ffff, 0x1ff_ffff)
  {
    var (low, borrow) := SubP(a);
    AddP(low, Cmovznz32(borrow, 0, 0xffff_ffff))
  }

  lemma {:induction false} SubPValue(a: seq<u32>)
    requires Tight(a)
    ensures var (low, borrow) := SubP(a); Val(low) - W10 * borrow as int == Val(a) - P
  {
    hide SubBorrow26;
    hide SubBorrow25;
    hide Bounded;
  }

  lemma {:induction false} FreezeArithmetic(v: int, low: int, borrow: int, r: int)
    requires 0 <= v < 2 * P && 0 <= low < W10 && 0 <= r < W10 && 0 <= borrow <= 1
    requires low - W10 * borrow == v - P
    requires r == low + borrow * P || r == low + borrow * P - W10
    ensures r == v % P
  {
    if borrow == 0 {
      assert v == P + r;
    }
  }

  /** fe_freeze gives the one representative below p. */
  lemma {:induction false} FreezeCorrect(a: seq<u32>)
    requires Tight(a)
    ensures Val(Freeze(a)) == Val(a) % P
  {
    hide SubP;
    hide AddP;
    hide Val;
    hide Cmovznz32;
    var (low, borrow) := SubP(a);
    SubPValue(a);
    AddPValue(low, if borrow == 0 then 0 else 0xffff_ffff);
    LimbRange(low);
    LimbRange(Freeze(a));
    TightRange(a);
    FreezeArithmetic(Val(a), Val(low), borrow as int, Val(Freeze(a)));
  }

  lemma {:induction false} TightRange(a: seq<u32>)
    requires Tight(a)
    ensures 0 <= Val(a) < 2 * P
  {
  }

  lemma {:induction false} AddPValue(a: seq<u32>, m: u32)
    requires Bounded(a, 0x3ff_ffff, 0x1ff_ffff) && (m == 0 || m == 0xffff_ffff)
    ensures var sum := Val(a) + (if m == 0 then 0 else P);
            Val(AddP(a, m)) == sum || Val(AddP(a, m)) == sum - W10
  {
    hide AddCarry26;
    hide AddCarry25;
    hide Masked;
    hide Bounded;
  }

  // ---------- to bytes

  function LowByte(x: u32): (b: u8)
    ensures b as int == Rem(x as int, 0x100)
  {
    (x % 0x100) as u8
  }

  function ByteAt(x: u32, r: u32): (b: u8)
    requires r > 0
    ensures b as int == Rem(Quo(x as int, r as int), 0x100)
  {
    LowByte(x / r)
  }

  function TopByte(x: u32, r: u32): (b: u8)
    requires r > 0 && x / r < 0x100
    ensures b as int == Quo(x as int, r as int)
  {
    (x / r) as u8
  }

  /** (x >> shift) | (y << n), cut to a byte: the top of one limb and the bottom of the next. */
  function SharedByte(x: u32, r: u32, y: u32, ghost n: nat, k: nat, ghost c: int): (b: u8)
    requires r > 0 && k == Shl(1, n) && (x / r) as nat < k && 0 < c && k * c == 0x100
    ensures b as int == Quo(x as int, r as int) + k * Rem(y as int, c)
  {
    ByteOfJoin((x / r) as int, y as int, k, c);
    (Join(x / r, y, n, k) % 0x100) as u8
  }

  lemma {:induction false} ByteOfJoin(lo: int, y: int, k: int, c: int)
    requires 0 <= lo < k && 0 < c && k * c == 0x100 && 0 <= y
    ensures (lo + k * y) % 0x100 == lo + k * (y % c)
  {
    var q, r := y / c, y % c;
    assert k * y == (k * c) * q + k * r;
    MulGap(c, r, k);
    DivModUnique(lo + k * y, 0x100, q, lo + k * r);
  }

  /** fe_tobytes, after fe_freeze. */
  function ToBytes(h: seq<u32>): (s: seq<u8>)
    requires Bounded(h, 0x3ff_ffff, 0x1ff_ffff)
    ensures |s| == 32
  {
    [LowByte(h[0]), ByteAt(h[0], 0x100), ByteAt(h[0], 0x1_0000), SharedByte(h[0], 0x100_0000, h[1], 2, 4, 64),
     ByteAt(h[1], 0x40), ByteAt(h[1], 0x4000), SharedByte(h[1], 0x40_0000, h[2], 3, 8, 32),
     ByteAt(h[2], 0x20), ByteAt(h[2], 0x2000), SharedByte(h[2], 0x20_0000, h[3], 5, 32, 8),
     ByteAt(h[3], 0x8), ByteAt(h[3], 0x800), SharedByte(h[3], 0x8_0000, h[4], 6, 64, 4),
     ByteAt(h[4], 0x4), ByteAt(h[4], 0x400), TopByte(h[4], 0x4_0000),
     LowByte(h[5]), ByteAt(h[5], 0x100), ByteAt(h[5], 0x1_0000), SharedByte(h[5], 0x100_0000, h[6], 1, 2, 128),
     ByteAt(h[6], 0x80), ByteAt(h[6], 0x8000), SharedByte(h[6], 0x80_0000, h[7], 3, 8, 32),
     ByteAt(h[7], 0x20), ByteAt(h[7], 0x2000), SharedByte(h[7], 0x20_0000, h[8], 4, 16, 16),
     ByteAt(h[8], 0x10), ByteAt(h[8], 0x1000), SharedByte(h[8], 0x10_0000, h[9], 6, 64, 4),
     ByteAt(h[9], 0x4), ByteAt(h[9], 0x400), TopByte(h[9], 0x4_0000)]
  }

  lemma {:induction false} QuoRem(x: int, r: int)
    requires r > 0
    ensures x == r * Quo(x, r) + Rem(x, r)
  {
  }

  lemma {:induction false} QuoTwice(x: int, c: int, d: int)
    requires x >= 0 && c > 0 && d > 0
    ensures d * c > 0 && Quo(x, d * c) == Quo(Quo(x, c), d)
  {
    var q, r := x / c, x % c;
    var u, v := q / d, q % d;
    assert x == (u * d + v) * c + r;
    assert (u * d + v) * c == u * (d * c) + v * c;
    MulGap(d, v, c);
    DivModUnique(x, d * c, u, v * c + r);
  }

  lemma {:induction false} ThreeBytes(q: int)
    ensures q == Rem(q, 0x100) + 0x100 * Rem(Quo(q, 0x100), 0x100) + 0x1_0000 * Quo(q, 0x1_0000)
  {
  }

  lemma {:induction false} Distribute3(r: int, a: int, b: int, c: int)
    ensures r * (a + 0x100 * b + 0x1_0000 * c) == r * a + 0x100 * r * b + 0x1_0000 * r * c
  {
  }

  /** A limb is its low part, two whole bytes and its high part. */
  lemma {:induction false} SplitLimb(x: int, r: int)
    requires x >= 0 && r > 0
    ensures x == Rem(x, r) + r * Rem(Quo(x, r), 0x100) + 0x100 * r * Rem(Quo(x, 0x100 * r), 0x100)
                 + 0x1_0000 * r * Quo(x, 0x1_0000 * r)
  {
    hide Quo;
    hide Rem;
    var q := Quo(x, r);
    QuoRem(x, r);
    QuoTwice(x, r, 0x100);
    QuoTwice(x, r, 0x1_0000);
    ThreeBytes(q);
    Distribute3(r, Rem(q, 0x100), Rem(Quo(q, 0x100), 0x100), Quo(q, 0x1_0000));
  }

  lemma {:induction false} ToBytesLow(h: seq<u32>)
    requires Bounded(h, 0x3ff_ffff, 0x1ff_ffff)
    ensures var a := Words(ToBytes(h));
            a[0] as int + 0x1_0000_0000 * a[1] as int + V2 * a[2] as int + V3 * a[3] as int ==
            h[0] as int + W1 * h[1] as int + W2 * h[2] as int + W3 * h[3] as int + W4 * h[4] as int
  {
    hide Quo;
    hide Rem;
    hide LowByte;
    hide ByteAt;
    hide TopByte;
    hide SharedByte;
    SplitLimb(h[0] as int, 0x100);
    SplitLimb(h[1] as int, 0x40);
    SplitLimb(h[2] as int, 0x20);
    SplitLimb(h[3] as int, 0x8);
    SplitLimb(h[4] as int, 0x4);
  }

  lemma {:induction false} ToBytesHigh(h: seq<u32>)
    requires Bounded(h, 0x3ff_ffff, 0x1ff_ffff)
    ensures var a := Words(ToBytes(h));
            V4 * a[4] as int + V5 * a[5] as int + V6 * a[6] as int + V7 * a[7] as int ==
            W5 * h[5] as int + W6 * h[6] as int + W7 * h[7] as int + W8 * h[8] as int + W9 * h[9] as int
  {
    hide Quo;
    hide Rem;
    hide LowByte;
    hide ByteAt;
    hide TopByte;
    hide SharedByte;
    SplitLimb(h[5] as int, 0x100);
    SplitLimb(h[6] as int, 0x80);
    SplitLimb(h[7] as int, 0x20);
    SplitLimb(h[8] as int, 0x10);
    SplitLimb(h[9] as int, 0x4);
  }

  /** fe_tobytes writes the little-endian digits of the value. */
  lemma {:induction false} ToBytesValue(h: seq<u32>)
    requires Bounded(h, 0x3ff_ffff, 0x1ff_ffff)
    ensures DecodeLittleEndian(ToBytes(h)) == Val(h)
  {
    hide ToBytes;
    hide Words;
    hide DecodeLittleEndian;
    DecodeWords(ToBytes(h));
    ToBytesLow(h);
    ToBytesHigh(h);
  }

  /** The bytes of a tight element are those of its residue. */
  lemma {:induction false} EncodeCorrect(a: seq<u32>)
    requires Tight(a)
    ensures ToBytes(Freeze(a)) == EncodeLittleEndian(Val(a) % P, 32)
  {
    hide ToBytes;
    hide Freeze;
    hide Val;
    hide EncodeLittleEndian;
    hide DecodeLittleEndian;
    FreezeCorrect(a);
    ToBytesValue(Freeze(a));
    EncodeUnique(ToBytes(Freeze(a)));
  }
}
