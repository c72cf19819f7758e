/** Field elements of TrustApp/src/curve25519.c: ten unsigned 32-bit limbs of
    alternately 26 and 25 bits. Every sum, product and shift below is computed
    in the C type of the source, so Dafny checks that none of them wraps. */
module Fe10 {
  import opened Bits
  import opened Field25519

  /** Weights of the limbs: 2^0, 2^26, 2^51, 2^77, ... , 2^230, and 2^255 past the last. */
  const W1: int := 0x400_0000
  const W2: int := 0x8_0000_0000_0000
  const W3: int := 0x2000_0000_0000_0000_0000
  const W4: int := 0x40_0000_0000_0000_0000_0000_0000
  const W5: int := 0x1_0000_0000_0000_0000_0000_0000_0000_0000
  const W6: int := 0x200_0000_0000_0000_0000_0000_0000_0000_0000_0000
  const W7: int := 0x8_0000_0000_0000_0000_0000_0000_0000_0000_0000_0000_0000
  const W8: int := 0x1000_0000_0000_0000_0000_0000_0000_0000_0000_0000_0000_0000_0000
  const W9: int := 0x40_0000_0000_0000_0000_0000_0000_0000_0000_0000_0000_0000_0000_0000_0000
  const W10: int := 0x8000_0000_0000_0000_0000_0000_0000_0000_0000_0000_0000_0000_0000_0000_0000_0000

  /** The bounds the source documents for its types fe and fe_loose: 1.125 and
      3.375 times the nominal limb size. */
  const TIGHT_EVEN: u32 := 0x480_0000
  const TIGHT_ODD: u32 := 0x240_0000
  const LOOSE_EVEN: u32 := 0xd80_0000
  const LOOSE_ODD: u32 := 0x6c0_0000

  predicate Bounded(l: seq<u32>, even: u32, odd: u32) {
    && |l| == 10
    && l[0] <= even && l[1] <= odd && l[2] <= even && l[3] <= odd && l[4] <= even
    && l[5] <= odd && l[6] <= even && l[7] <= odd && l[8] <= even && l[9] <= odd
  }

  predicate Tight(l: seq<u32>) { |l| == 10 && Bounded(l, TIGHT_EVEN, TIGHT_ODD) }

  predicate Loose(l: seq<u32>) { |l| == 10 && Bounded(l, LOOSE_EVEN, LOOSE_ODD) }

  /** The integer a limb vector stands for. */
  function Val(l: seq<u32>): int
    requires |l| == 10
  {
    l[0] as int + W1 * l[1] as int + W2 * l[2] as int + W3 * l[3] as int + W4 * l[4] as int
    + W5 * l[5] as int + W6 * l[6] as int + W7 * l[7] as int + W8 * l[8] as int + W9 * l[9] as int
  }

  // ---------- addition and subtraction

  function AddLimbs(f: seq<u32>, g: seq<u32>): (h: seq<u32>)
    requires Tight(f) && Tight(g)
    ensures Loose(h) && Val(h) == Val(f) + Val(g)
  {
    [f[0] + g[0], f[1] + g[1], f[2] + g[2], f[3] + g[3], f[4] + g[4],
     f[5] + g[5], f[6] + g[6], f[7] + g[7], f[8] + g[8], f[9] + g[9]]
  }

  /** Adds 2p first, so that no limb goes below zero. */
  function SubLimbs(f: seq<u32>, g: seq<u32>): (h: seq<u32>)
    requires Tight(f) && Tight(g)
    ensures Loose(h) && Cong(Val(h), Val(f) - Val(g))
  {
    var h := [0x7ffffda + f[0] - g[0], 0x3fffffe + f[1] - g[1], 0x7fffffe + f[2] - g[2], 0x3fffffe + f[3] - g[3],
              0x7fffffe + f[4] - g[4], 0x3fffffe + f[5] - g[5], 0x7fffffe + f[6] - g[6], 0x3fffffe + f[7] - g[7],
              0x7fffffe + f[8] - g[8], 0x3fffffe + f[9] - g[9]];
    CongMultiple(Val(h), Val(f) - Val(g), 2);
    h
  }

  // ---------- multiplication

  const E: int := 0xd80_0000
  const O: int := 0x6c0_0000
  const EE: int := 0xb6400000000000

  lemma {:induction false} MulBound(a: int, b: int, c: int, d: int)
    requires 0 <= a <= c && 0 <= b <= d
    ensures 0 <= a * b <= c * d
  {
    assert a * b <= c * b;
    assert c * b <= c * d;
  }

  ghost function Prod(a: int, b: int): int { a * b }

  /** The C product (u64)a * b of two 32-bit words, with bounds for the operands. */
  function Mul(a: u32, b: u32, ghost ca: int, ghost cb: int): (p: u64)
    requires a as int <= ca && b as int <= cb
    ensures p as int == Prod(a as int, b as int) <= ca * cb
  {
    MulBound(a as int, b as int, 0xffff_ffff, 0xffff_ffff);
    MulBound(a as int, b as int, ca, cb);
    a as u64 * b as u64
  }

  lemma {:induction false} ProdScale(k: int, a: int, b: int)
    ensures Prod(k * a, b) == k * Prod(a, b)
  {
  }

  lemma {:induction false} ProdCommutes(a: int, b: int)
    ensures Prod(a, b) == Prod(b, a)
  {
  }

  /** The nineteen columns of a double-length product, as machine words. */
  datatype Wide = Wide(c0: u64, c1: u64, c2: u64, c3: u64, c4: u64, c5: u64, c6: u64, c7: u64, c8: u64, c9: u64,
                       d0: u64, d1: u64, d2: u64, d3: u64, d4: u64, d5: u64, d6: u64, d7: u64, d8: u64)

  /** The same columns as integers. */
  datatype Columns = Columns(c0: int, c1: int, c2: int, c3: int, c4: int, c5: int, c6: int, c7: int, c8: int, c9: int,
                             d0: int, d1: int, d2: int, d3: int, d4: int, d5: int, d6: int, d7: int, d8: int)

  function AsInts(w: Wide): Columns {
    Columns(w.c0 as int, w.c1 as int, w.c2 as int, w.c3 as int, w.c4 as int, w.c5 as int, w.c6 as int, w.c7 as int,
            w.c8 as int, w.c9 as int, w.d0 as int, w.d1 as int, w.d2 as int, w.d3 as int, w.d4 as int, w.d5 as int,
            w.d6 as int, w.d7 as int, w.d8 as int)
  }

  /** The reference product in this radix: column k gathers p(i, j) with
      i + j == k, and odd limbs meeting odd limbs count twice. */
  ghost function Convolve(p: (int, int) -> int): Columns {
    Columns(
      p(0, 0),
      p(0, 1) + p(1, 0),
      p(0, 2) + p(2, 0) + 2 * p(1, 1),
      p(0, 3) + p(1, 2) + p(2, 1) + p(3, 0),
      p(0, 4) + p(2, 2) + p(4, 0) + 2 * (p(1, 3) + p(3, 1)),
      p(0, 5) + p(1, 4) + p(2, 3) + p(3, 2) + p(4, 1) + p(5, 0),
      p(0, 6) + p(2, 4) + p(4, 2) + p(6, 0) + 2 * (p(1, 5) + p(3, 3) + p(5, 1)),
      p(0, 7) + p(1, 6) + p(2, 5) + p(3, 4) + p(4, 3) + p(5, 2) + p(6, 1) + p(7, 0),
      p(0, 8) + p(2, 6) + p(4, 4) + p(6, 2) + p(8, 0) + 2 * (p(1, 7) + p(3, 5) + p(5, 3) + p(7, 1)),
      p(0, 9) + p(1, 8) + p(2, 7) + p(3, 6) + p(4, 5) + p(5, 4) + p(6, 3) + p(7, 2) + p(8, 1) + p(9, 0),
      p(2, 8) + p(4, 6) + p(6, 4) + p(8, 2) + 2 * (p(1, 9) + p(3, 7) + p(5, 5) + p(7, 3) + p(9, 1)),
      p(2, 9) + p(3, 8) + p(4, 7) + p(5, 6) + p(6, 5) + p(7, 4) + p(8, 3) + p(9, 2),
      p(4, 8) + p(6, 6) + p(8, 4) + 2 * (p(3, 9) + p(5, 7) + p(7, 5) + p(9, 3)),
      p(4, 9) + p(5, 8) + p(6, 7) + p(7, 6) + p(8, 5) + p(9, 4),
      p(6, 8) + p(8, 6) + 2 * (p(5, 9) + p(7, 7) + p(9, 5)),
      p(6, 9) + p(7, 8) + p(8, 7) + p(9, 6),
      p(8, 8) + 2 * (p(7, 9) + p(9, 7)),
      p(8, 9) + p(9, 8),
      2 * p(9, 9))
  }

  predicate ColumnBounds(w: Wide) {
    var b := 7 * EE;
    && w.c0 as int <= b && w.c1 as int <= b && w.c2 as int <= b && w.c3 as int <= b && w.c4 as int <= b
    && w.c5 as int <= b && w.c6 as int <= b && w.c7 as int <= b && w.c8 as int <= b && w.c9 as int <= b
    && w.d0 as int <= b && w.d1 as int <= b && w.d2 as int <= b && w.d3 as int <= b && w.d4 as int <= b
    && w.d5 as int <= b && w.d6 as int <= b && w.d7 as int <= b && w.d8 as int <= b
  }

  function MulColumns(in1: seq<u32>, in2: seq<u32>): (w: Wide)
    requires Loose(in1) && Loose(in2)
    ensures ColumnBounds(w)
  {
    var x20, x21, x19, x17, x15, x13, x11, x9, x7, x5 :=
      in1[9], in1[8], in1[7], in1[6], in1[5], in1[4], in1[3], in1[2], in1[1], in1[0];
    var x38, x39, x37, x35, x33, x31, x29, x27, x25, x23 :=
      in2[9], in2[8], in2[7], in2[6], in2[5], in2[4], in2[3], in2[2], in2[1], in2[0];
    Wide(
      Mul(x23, x5, E, E),
      Mul(x23, x7, E, O) + Mul(x25, x5, O, E),
      Mul(2 * x25, x7, E, O) + Mul(x23, x9, E, E) + Mul(x27, x5, E, E),
      Mul(x25, x9, O, E) + Mul(x27, x7, E, O) + Mul(x23, x11, E, O) + Mul(x29, x5, O, E),
      Mul(x27, x9, E, E) + 2 * (Mul(x25, x11, O, O) + Mul(x29, x7, O, O)) + Mul(x23, x13, E, E) + Mul(x31, x5, E, E),
      Mul(x27, x11, E, O) + Mul(x29, x9, O, E) + Mul(x25, x13, O, E) + Mul(x31, x7, E, O) + Mul(x23, x15, E, O)
        + Mul(x33, x5, O, E),
      2 * (Mul(x29, x11, O, O) + Mul(x25, x15, O, O) + Mul(x33, x7, O, O)) + Mul(x27, x13, E, E)
        + Mul(x31, x9, E, E) + Mul(x23, x17, E, E) + Mul(x35, x5, E, E),
      Mul(x29, x13, O, E) + Mul(x31, x11, E, O) + Mul(x27, x15, E, O) + Mul(x33, x9, O, E) + Mul(x25, x17, O, E)
        + Mul(x35, x7, E, O) + Mul(x23, x19, E, O)
        + Mul(x37, x5, O, E),
      Mul(x31, x13, E, E) + 2 * (Mul(x29, x15, O, O) + Mul(x33, x11, O, O) + Mul(x25, x19, O, O)
                                 + Mul(x37, x7, O, O)) + Mul(x27, x17, E, E) + Mul(x35, x9, E, E)
        + Mul(x23, x21, E, E) + Mul(x39, x5, E, E),
      Mul(x31, x15, E, O) + Mul(x33, x13, O, E) + Mul(x29, x17, O, E) + Mul(x35, x11, E, O) + Mul(x27, x19, E, O)
        + Mul(x37, x9, O, E) + Mul(x25, x21, O, E)
        + Mul(x39, x7, E, O) + Mul(x23, x20, E, O) + Mul(x38, x5, O, E),
      2 * (Mul(x33, x15, O, O) + Mul(x29, x19, O, O) + Mul(x37, x11, O, O) + Mul(x25, x20, O, O)
           + Mul(x38, x7, O, O)) + Mul(x31, x17, E, E) + Mul(x35, x13, E, E)
        + Mul(x27, x21, E, E) + Mul(x39, x9, E, E),
      Mul(x33, x17, O, E) + Mul(x35, x15, E, O) + Mul(x31, x19, E, O) + Mul(x37, x13, O, E) + Mul(x29, x21, O, E)
        + Mul(x39, x11, E, O) + Mul(x27, x20, E, O)
        + Mul(x38, x9, O, E),
      Mul(x35, x17, E, E) + 2 * (Mul(x33, x19, O, O) + Mul(x37, x15, O, O) + Mul(x29, x20, O, O)
                                 + Mul(x38, x11, O, O)) + Mul(x31, x21, E, E) + Mul(x39, x13, E, E),
      Mul(x35, x19, E, O) + Mul(x37, x17, O, E) + Mul(x33, x21, O, E) + Mul(x39, x15, E, O) + Mul(x31, x20, E, O)
        + Mul(x38, x13, O, E),
      2 * (Mul(x37, x19, O, O) + Mul(x33, x20, O, O) + Mul(x38, x15, O, O)) + Mul(x35, x21, E, E) + Mul(x39, x17, E, E),
      Mul(x37, x21, O, E) + Mul(x39, x19, E, O) + Mul(x35, x20, E, O) + Mul(x38, x17, O, E),
      Mul(x39, x21, E, E) + 2 * (Mul(x37, x20, O, O) + Mul(x38, x19, O, O)),
      Mul(x39, x20, E, O) + Mul(x38, x21, O, E),
      Mul(2 * x38, x20, E, O))
  }

  function SqrColumns(in1: seq<u32>): (w: Wide)
    requires Loose(in1)
    ensures ColumnBounds(w)
  {
    var x17, x18, x16, x14, x12, x10, x8, x6, x4, x2 :=
      in1[9], in1[8], in1[7], in1[6], in1[5], in1[4], in1[3], in1[2], in1[1], in1[0];
    Wide(
      Mul(x2, x2, E, E),
      Mul(2 * x2, x4, 2 * E, O),
      2 * (Mul(x4, x4, O, O) + Mul(x2, x6, E, E)),
      2 * (Mul(x4, x6, O, E) + Mul(x2, x8, E, O)),
      Mul(x6, x6, E, E) + Mul(4 * x4, x8, 2 * E, O) + Mul(2 * x2, x10, 2 * E, E),
      2 * (Mul(x6, x8, E, O) + Mul(x4, x10, O, E) + Mul(x2, x12, E, O)),
      2 * (Mul(x8, x8, O, O) + Mul(x6, x10, E, E) + Mul(x2, x14, E, E) + Mul(2 * x4, x12, E, O)),
      2 * (Mul(x8, x10, O, E) + Mul(x6, x12, E, O) + Mul(x4, x14, O, E) + Mul(x2, x16, E, O)),
      Mul(x10, x10, E, E) + 2 * (Mul(x6, x14, E, E) + Mul(x2, x18, E, E)
                                 + 2 * (Mul(x4, x16, O, O) + Mul(x8, x12, O, O))),
      2 * (Mul(x10, x12, E, O) + Mul(x8, x14, O, E) + Mul(x6, x16, E, O) + Mul(x4, x18, O, E) + Mul(x2, x17, E, O)),
      2 * (Mul(x12, x12, O, O) + Mul(x10, x14, E, E) + Mul(x6, x18, E, E)
           + 2 * (Mul(x8, x16, O, O) + Mul(x4, x17, O, O))),
      2 * (Mul(x12, x14, O, E) + Mul(x10, x16, E, O) + Mul(x8, x18, O, E) + Mul(x6, x17, E, O)),
      Mul(x14, x14, E, E) + 2 * (Mul(x10, x18, E, E) + 2 * (Mul(x12, x16, O, O) + Mul(x8, x17, O, O))),
      2 * (Mul(x14, x16, E, O) + Mul(x12, x18, O, E) + Mul(x10, x17, E, O)),
      2 * (Mul(x16, x16, O, O) + Mul(x14, x18, E, E) + Mul(2 * x12, x17, E, O)),
      2 * (Mul(x16, x18, O, E) + Mul(x14, x17, E, O)),
      Mul(x18, x18, E, E) + Mul(4 * x16, x17, 2 * E, O),
      Mul(2 * x18, x17, 2 * E, O),
      Mul(2 * x17, x17, E, O))
  }

  ghost function Products(a: seq<u32>, b: seq<u32>): (int, int) -> int {
    (i: int, j: int) => if 0 <= i < |a| && 0 <= j < |b| then Prod(b[j] as int, a[i] as int) else 0
  }

  lemma {:induction false} MulColumnsConvolve(a: seq<u32>, b: seq<u32>)
    requires Loose(a) && Loose(b)
    ensures AsInts(MulColumns(a, b)) == Convolve(Products(a, b))
  {
    ProdScale(2, b[1] as int, a[1] as int);
    ProdScale(2, b[9] as int, a[9] as int);
    hide Mul;
    hide Prod;
  }

  lemma {:induction false} SqrColumnsConvolve(a: seq<u32>)
    requires Loose(a)
    ensures AsInts(SqrColumns(a)) == Convolve(Products(a, a))
  {
    ProdScale(2, a[0] as int, a[1] as int);
    ProdScale(4, a[1] as int, a[3] as int);
    ProdScale(2, a[0] as int, a[4] as int);
    ProdScale(2, a[1] as int, a[5] as int);
    ProdScale(2, a[5] as int, a[9] as int);
    ProdScale(4, a[7] as int, a[9] as int);
    ProdScale(2, a[8] as int, a[9] as int);
    ProdScale(2, a[9] as int, a[9] as int);
    forall i, j | 0 <= i < 10 && 0 <= j < 10
      ensures Prod(a[i] as int, a[j] as int) == Prod(a[j] as int, a[i] as int)
    {
      ProdCommutes(a[i] as int, a[j] as int);
    }
    hide Mul;
    hide Prod;
  }

  /** The weights again, each as a multiple of the one before: the form in which
      the double sum of a product regroups. */
  const G1: int := 0x400_0000
  const G2: int := G1 * 0x200_0000
  const G3: int := G2 * 0x400_0000
  const G4: int := G3 * 0x200_0000
  const G5: int := G4 * 0x400_0000
  const G6: int := G5 * 0x200_0000
  const G7: int := G6 * 0x400_0000
  const G8: int := G7 * 0x200_0000
  const G9: int := G8 * 0x400_0000
  const G10: int := G9 * 0x200_0000

  ghost function LowVal(w: Columns): int {
    w.c0 + G1 * w.c1 + G2 * w.c2 + G3 * w.c3 + G4 * w.c4 + G5 * w.c5 + G6 * w.c6 + G7 * w.c7 + G8 * w.c8 + G9 * w.c9
  }

  ghost function HighVal(w: Columns): int {
    w.d0 + G1 * w.d1 + G2 * w.d2 + G3 * w.d3 + G4 * w.d4 + G5 * w.d5 + G6 * w.d6 + G7 * w.d7 + G8 * w.d8
  }

  ghost function RowVal(p: (int, int) -> int, i: int): int {
    p(i, 0) + G1 * p(i, 1) + G2 * p(i, 2) + G3 * p(i, 3) + G4 * p(i, 4) + G5 * p(i, 5) + G6 * p(i, 6) + G7 * p(i, 7)
    + G8 * p(i, 8) + G9 * p(i, 9)
  }

  /** Summing by columns or by rows gives the same integer. */
  lemma {:induction false} Regroup(p: (int, int) -> int)
    ensures var w := Convolve(p);
            LowVal(w) + G10 * HighVal(w) ==
            RowVal(p, 0) + G1 * RowVal(p, 1) + G2 * RowVal(p, 2) + G3 * RowVal(p, 3) + G4 * RowVal(p, 4)
            + G5 * RowVal(p, 5) + G6 * RowVal(p, 6) + G7 * RowVal(p, 7) + G8 * RowVal(p, 8) + G9 * RowVal(p, 9)
  {
  }

  lemma {:induction false} Distribute(x: int, b: seq<u32>)
    requires |b| == 10
    ensures x * Val(b) ==
            x * b[0] as int + W1 * (x * b[1] as int) + W2 * (x * b[2] as int) + W3 * (x * b[3] as int)
            + W4 * (x * b[4] as int) + W5 * (x * b[5] as int) + W6 * (x * b[6] as int) + W7 * (x * b[7] as int)
            + W8 * (x * b[8] as int) + W9 * (x * b[9] as int)
  {
  }

  lemma {:induction false} RowValue(a: seq<u32>, b: seq<u32>, i: int)
    requires |a| == |b| == 10 && 0 <= i < 10
    ensures RowVal(Products(a, b), i) == a[i] as int * Val(b)
  {
    Distribute(a[i] as int, b);
  }

  /** The columns of a convolution add up to the product of the two integers. */
  lemma {:induction false} ConvolutionValue(a: seq<u32>, b: seq<u32>)
    requires |a| == |b| == 10
    ensures var w := Convolve(Products(a, b)); LowVal(w) + W10 * HighVal(w) == Val(a) * Val(b)
  {
    Regroup(Products(a, b));
    RowValue(a, b, 0);
    RowValue(a, b, 1);
    RowValue(a, b, 2);
    RowValue(a, b, 3);
    RowValue(a, b, 4);
    RowValue(a, b, 5);
    RowValue(a, b, 6);
    RowValue(a, b, 7);
    RowValue(a, b, 8);
    RowValue(a, b, 9);
    Distribute(Val(b), a);
  }

  // ---------- reduction

  /** lo + 19 * hi, with the shifts and sums of the source. */
  function Fold(lo: u64, hi: u64): (r: u64)
    requires lo as int <= 7 * EE && hi as int <= 7 * EE
    ensures r as int == lo as int + 19 * hi as int
  {
    var a := lo + hi * 16;
    var b := a + hi * 2;
    b + hi
  }

  lemma {:induction false} Pow2Limb()
    ensures Pow2(25) == 0x200_0000 && Pow2(26) == 0x400_0000
  {
    Pow2Add(5, 5);
    Pow2Add(10, 10);
    Pow2Add(20, 5);
  }

  lemma {:induction false} AndLow26(x: nat)
    ensures And(x % 0x1_0000_0000, 0x3ff_ffff) == x % 0x400_0000
  {
    Pow2Limb();
    hide Pow2;
    hide And;
    AndMask(x % 0x1_0000_0000, 26);
  }

  lemma {:induction false} AndLow25(x: nat)
    ensures And(x % 0x1_0000_0000, 0x1ff_ffff) == x % 0x200_0000
  {
    Pow2Limb();
    hide Pow2;
    hide And;
    AndMask(x % 0x1_0000_0000, 25);
  }

  /** (u32)x & 0x3ffffff */
  function Low26(x: u64): (r: u32)
    ensures r as int == x as int % 0x400_0000
  {
    AndLow26(x as nat);
    And(x as nat % 0x1_0000_0000, 0x3ff_ffff) as u32
  }

  /** (u32)x & 0x1ffffff */
  function Low25(x: u64): (r: u32)
    ensures r as int == x as int % 0x200_0000
  {
    AndLow25(x as nat);
    And(x as nat % 0x1_0000_0000, 0x1ff_ffff) as u32
  }

  /** Ten columns, each with the carry of the column below added in. */
  datatype Carried = Carried(x85: u64, x88: u64, x91: u64, x94: u64, x97: u64,
                             x100: u64, x103: u64, x106: u64, x109: u64, x112: u64)

  /** Fold the columns of weight 2^255 and more into the lower ones, and carry upwards. */
  function CarryUp(w: Wide): (c: Carried)
    requires ColumnBounds(w)
    ensures c.x112 as int <= 8 * EE
  {
    var x85 := Fold(w.c0, w.d0);
    var x88 := x85 / 0x400_0000 + Fold(w.c1, w.d1);
    var x91 := x88 / 0x200_0000 + Fold(w.c2, w.d2);
    var x94 := x91 / 0x400_0000 + Fold(w.c3, w.d3);
    var x97 := x94 / 0x200_0000 + Fold(w.c4, w.d4);
    var x100 := x97 / 0x400_0000 + Fold(w.c5, w.d5);
    var x103 := x100 / 0x200_0000 + Fold(w.c6, w.d6);
    var x106 := x103 / 0x400_0000 + Fold(w.c7, w.d7);
    var x109 := x106 / 0x200_0000 + Fold(w.c8, w.d8);
    var x112 := x109 / 0x400_0000 + w.c9;
    Carried(x85, x88, x91, x94, x97, x100, x103, x106, x109, x112)
  }

  /** Bring the top carry round to the bottom and carry twice more. */
  function CarryRound(c: Carried): (out: seq<u32>)
    requires c.x112 as int <= 8 * EE
    ensures |out| == 10
  {
    var x113 := c.x112 / 0x200_0000;
    var x115 := Low26(c.x85) as u64 + 0x13 * x113;
    var x116 := (x115 / 0x400_0000) as u32;
    var x118 := x116 + Low25(c.x88);
    var x119 := x118 / 0x200_0000;
    [Low26(x115), Low25(x118 as u64), x119 + Low26(c.x91), Low25(c.x94), Low26(c.x97),
     Low25(c.x100), Low26(c.x103), Low25(c.x106), Low26(c.x109), Low25(c.x112)]
  }

  /** The common tail of the three multiplications. */
  function Reduce(w: Wide): (out: seq<u32>)
    requires ColumnBounds(w)
    ensures |out| == 10
  {
    CarryRound(CarryUp(w))
  }

  lemma {:induction false} CarryRoundTight(c: Carried)
    requires c.x112 as int <= 8 * EE
    ensures Tight(CarryRound(c))
  {
    hide Low26;
    hide Low25;
  }

  ghost function Quo(x: int, radix: int): int
    requires radix > 0
  {
    x / radix
  }

  ghost function Rem(x: int, radix: int): int
    requires radix > 0
  {
    x % radix
  }

  /** What the accumulators stand for once each has passed on its carry. */
  ghost function CarriedVal(c: Carried): int {
    Rem(c.x85 as int, 0x400_0000) + W1 * Rem(c.x88 as int, 0x200_0000) + W2 * Rem(c.x91 as int, 0x400_0000)
    + W3 * Rem(c.x94 as int, 0x200_0000) + W4 * Rem(c.x97 as int, 0x400_0000) + W5 * Rem(c.x100 as int, 0x200_0000)
    + W6 * Rem(c.x103 as int, 0x400_0000) + W7 * Rem(c.x106 as int, 0x200_0000)
      + W8 * Rem(c.x109 as int, 0x400_0000) + W9 * c.x112 as int
  }

  /** Splitting off a carry keeps the value. */
  lemma {:induction false} Pass(x: int, radix: int, w: int, w': int)
    requires radix > 0 && w' == w * radix
    ensures w * Rem(x, radix) + w' * Quo(x, radix) == w * x
  {
    var q, r := x / radix, x % radix;
    assert x == q * radix + r;
    calc {
      w * r + w * radix * q;
      w * (r + radix * q);
    }
  }

  lemma {:induction false} CarrySteps(w: Wide)
    requires ColumnBounds(w)
    ensures var c := CarryUp(w);
            && c.x85 as int == w.c0 as int + 19 * w.d0 as int
            && c.x88 as int == Quo(c.x85 as int, 0x400_0000) + w.c1 as int + 19 * w.d1 as int
            && c.x91 as int == Quo(c.x88 as int, 0x200_0000) + w.c2 as int + 19 * w.d2 as int
            && c.x94 as int == Quo(c.x91 as int, 0x400_0000) + w.c3 as int + 19 * w.d3 as int
            && c.x97 as int == Quo(c.x94 as int, 0x200_0000) + w.c4 as int + 19 * w.d4 as int
            && c.x100 as int == Quo(c.x97 as int, 0x400_0000) + w.c5 as int + 19 * w.d5 as int
            && c.x103 as int == Quo(c.x100 as int, 0x200_0000) + w.c6 as int + 19 * w.d6 as int
            && c.x106 as int == Quo(c.x103 as int, 0x400_0000) + w.c7 as int + 19 * w.d7 as int
            && c.x109 as int == Quo(c.x106 as int, 0x200_0000) + w.c8 as int + 19 * w.d8 as int
            && c.x112 as int == Quo(c.x109 as int, 0x400_0000) + w.c9 as int
  {
    hide Fold;
  }

  lemma {:induction false} CarryUpValue(w: Wide)
    requires ColumnBounds(w)
    ensures CarriedVal(CarryUp(w)) == LowVal(AsInts(w)) + 19 * HighVal(AsInts(w))
  {
    hide Quo;
    hide Rem;
    hide CarryUp;
    var c := CarryUp(w);
    CarrySteps(w);
    Pass(c.x85 as int, 0x400_0000, 1, W1);
    Pass(c.x88 as int, 0x200_0000, W1, W2);
    Pass(c.x91 as int, 0x400_0000, W2, W3);
    Pass(c.x94 as int, 0x200_0000, W3, W4);
    Pass(c.x97 as int, 0x400_0000, W4, W5);
    Pass(c.x100 as int, 0x200_0000, W5, W6);
    Pass(c.x103 as int, 0x400_0000, W6, W7);
    Pass(c.x106 as int, 0x200_0000, W7, W8);
    Pass(c.x109 as int, 0x400_0000, W8, W9);
  }

  lemma {:induction false} CarryRoundValue(c: Carried)
    requires c.x112 as int <= 8 * EE
    ensures Val(CarryRound(c)) == CarriedVal(c) - c.x112 as int / 0x200_0000 * P
  {
    hide Low26;
    hide Low25;
  }

  lemma {:induction false} FoldCong(low: int, high: int, q: int)
    ensures Cong(low + 19 * high - q * P, low + W10 * high)
  {
    CongMultiple(low + W10 * high, low + 19 * high - q * P, high + q);
  }

  lemma {:induction false} ReduceValue(w: Wide)
    requires ColumnBounds(w)
    ensures Cong(Val(Reduce(w)), LowVal(AsInts(w)) + W10 * HighVal(AsInts(w)))
  {
    hide *;
    var c := CarryUp(w);
    CarryUpValue(w);
    CarryRoundValue(c);
    FoldCong(LowVal(AsInts(w)), HighVal(AsInts(w)), c.x112 as int / 0x200_0000);
    ReduceUnfold(w);
  }

  lemma {:induction false} ReduceUnfold(w: Wide)
    requires ColumnBounds(w)
    ensures Reduce(w) == CarryRound(CarryUp(w))
  {
  }

  /** fe_mul_impl */
  function MulLimbs(f: seq<u32>, g: seq<u32>): (h: seq<u32>)
    requires Loose(f) && Loose(g)
    ensures |h| == 10
  {
    Reduce(MulColumns(f, g))
  }

  /** fe_sqr_impl: symmetric products are computed once and doubled. */
  function SqrLimbs(f: seq<u32>): (h: seq<u32>)
    requires Loose(f)
    ensures |h| == 10
  {
    Reduce(SqrColumns(f))
  }

  /** fe_mul_121666_impl: the body of fe_mul_impl with the second operand fixed. */
  function Mul121666Limbs(f: seq<u32>): (h: seq<u32>)
    requires Loose(f)
    ensures |h| == 10
  {
    MulLimbs(f, [121666, 0, 0, 0, 0, 0, 0, 0, 0, 0])
  }

  /** The word-level product is a tight representative of the product of the integers. */
  lemma {:induction false} MulCorrect(f: seq<u32>, g: seq<u32>)
    requires Loose(f) && Loose(g)
    ensures Tight(MulLimbs(f, g)) && Cong(Val(MulLimbs(f, g)), Val(f) * Val(g))
  {
    hide Reduce;
    hide Convolve;
    hide LowVal;
    hide HighVal;
    hide Val;
    var w := MulColumns(f, g);
    MulColumnsConvolve(f, g);
    ConvolutionValue(f, g);
    hide MulColumns;
    hide AsInts;
    ReduceValue(w);
    ReduceTight(w);
  }

  lemma {:induction false} ReduceTight(w: Wide)
    requires ColumnBounds(w)
    ensures Tight(Reduce(w))
  {
    CarryRoundTight(CarryUp(w));
    hide CarryRound;
  }

  lemma {:induction false} SqrCorrect(f: seq<u32>)
    requires Loose(f)
    ensures Tight(SqrLimbs(f)) && Cong(Val(SqrLimbs(f)), Val(f) * Val(f))
  {
    hide Reduce;
    hide Convolve;
    hide LowVal;
    hide HighVal;
    hide Val;
    var w := SqrColumns(f);
    SqrColumnsConvolve(f);
    ConvolutionValue(f, f);
    hide SqrColumns;
    hide AsInts;
    ReduceValue(w);
    ReduceTight(w);
  }

  lemma {:induction false} Mul121666Correct(f: seq<u32>)
    requires Loose(f)
    ensures Tight(Mul121666Limbs(f)) && Cong(Val(Mul121666Limbs(f)), Val(f) * 121666)
  {
    var g: seq<u32> := [121666, 0, 0, 0, 0, 0, 0, 0, 0, 0];
    assert Val(g) == 121666;
    hide MulLimbs;
    hide Val;
    MulCorrect(f, g);
  }
}
