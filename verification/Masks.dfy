/** Network masks of the self-test: a prefix length spread over four words, compared and counted
    word by word. */
module Masks {
  import opened Bits
  import opened PrefixTree
  import opened AddressBits

  /** a & b on words in host order. */
  function AndWord(a: seq<u8>, b: seq<u8>): (r: seq<u8>)
    requires |a| == |b|
    ensures |r| == |a|
  {
    EncodeLittleEndian(And(DecodeLittleEndian(a), DecodeLittleEndian(b)), |a|)
  }

  lemma {:induction false} AndWordBits(a: seq<u8>, b: seq<u8>, i: nat)
    requires |a| == |b| && i < 8 * |a|
    ensures ToBits(AndWord(a, b))[i] == (ToBits(a)[i] && ToBits(b)[i])
  {
    hide Bit;
    hide And;
    hide DecodeLittleEndian;
    hide EncodeLittleEndian;
    var k := 8 * (i / 8) + 7 - i % 8;
    Position(i);
    var x, y := DecodeLittleEndian(a), DecodeLittleEndian(b);
    EncodeBit(And(x, y), |a|, k);
    AndBit(x, y, k);
    DecodeBit(a, k);
    DecodeBit(b, k);
  }

  /** Where a bit in network order is found in a word in host order. */
  lemma {:induction false} Position(i: nat)
    ensures var k := 8 * (i / 8) + 7 - i % 8; k / 8 == i / 8 && k % 8 == 7 - i % 8
  {
  }

  // ---------- from length to mask

  /** (0xFFFFFFFFUL << s) & 0xFFFFFFFFUL */
  function ShiftedOnes(s: nat): nat
    requires s <= 32
  {
    (Pow2(32) - 1) * Pow2(s) % Pow2(32)
  }

  lemma {:induction false} ShiftedOnesIs(s: nat)
    requires s <= 32
    ensures Pow2(s) <= Pow2(32) && ShiftedOnes(s) == Pow2(32) - Pow2(s)
  {
    hide Pow2;
    Pow2Add(s, 32 - s);
    Wrapped(Pow2(32), Pow2(s), Pow2(32 - s));
  }

  lemma {:induction false} Wrapped(w: nat, p: nat, q: nat)
    requires w == p * q && p > 0 && q > 0
    ensures p <= w && (w - 1) * p % w == w - p
  {
    AtLeast(p, q);
    Apart(w, p);
    WrappedStep(w - p, p - 1, w);
  }

  lemma {:induction false} AtLeast(p: nat, q: nat)
    requires q > 0
    ensures p <= p * q
  {
    assert p * q == p + p * (q - 1);
  }

  lemma {:induction false} Apart(w: int, p: int)
    ensures (w - 1) * p == (w - p) + w * (p - 1)
  {
  }

  lemma {:induction false} WrappedStep(r: nat, k: nat, w: nat)
    requires r < w
    ensures (r + w * k) % w == r
  {
    DivModUnique(r + w * k, w, k, r);
  }

  /** horrible_cidr_to_mask: whole bytes of ones, and one word written anew in network order. */
  function CidrToMask(cidr: nat): (mask: seq<u8>)
    requires cidr <= 128
    ensures |mask| == 16
  {
    var ones: seq<u8> := seq(16, i => if i < cidr / 8 then 0xff else 0);
    if cidr % 32 == 0 then ones
    else
      var w := cidr / 32;
      ones[..4 * w] + ReverseBytes(EncodeLittleEndian(ShiftedOnes(32 - cidr % 32), 4)) + ones[4 * w + 4..]
  }

  lemma {:induction false} OnesBit(j: nat)
    requires j < 8
    ensures Bit(0xff, j) && !Bit(0, j)
  {
    assert Pow2(8) == 0x100;
    HighMask(8, 0, j);
    BitZero(j);
  }

  /** A bit of the word that is written in network order. */
  lemma {:induction false} WordBit(s: nat, i: nat)
    requires 0 < s < 32 && i < 32
    ensures Bit(ReverseBytes(EncodeLittleEndian(ShiftedOnes(s), 4))[i / 8] as nat, 7 - i % 8) == (i < 32 - s)
  {
    hide Pow2;
    hide Bit;
    hide EncodeLittleEndian;
    hide ShiftedOnes;
    ShiftedOnesIs(s);
    HighMask(32, s, 31 - i);
    EncodeBit(ShiftedOnes(s), 4, 31 - i);
    assert (31 - i) / 8 == 3 - i / 8 && (31 - i) % 8 == 7 - i % 8;
  }

  /** The mask has exactly its first cidr bits set. */
  lemma {:induction false} MaskBits(cidr: nat, i: nat)
    requires cidr <= 128 && i < 128
    ensures ToBits(CidrToMask(cidr))[i] == (i < cidr)
  {
    hide Bit;
    hide ShiftedOnes;
    hide EncodeLittleEndian;
    hide ReverseBytes;
    OnesBit(7 - i % 8);
    var w, mask := cidr / 32, CidrToMask(cidr);
    assert ToBits(mask)[i] == Bit(mask[i / 8] as nat, 7 - i % 8);
    if cidr % 32 != 0 && 4 * w <= i / 8 < 4 * w + 4 {
      var j := i - 32 * w;
      assert j / 8 == i / 8 - 4 * w && j % 8 == i % 8;
      WordBit(32 - cidr % 32, j);
      assert mask[i / 8] == ReverseBytes(EncodeLittleEndian(ShiftedOnes(32 - cidr % 32), 4))[j / 8];
    } else {
      assert mask[i / 8] == if i / 8 < cidr / 8 then 0xff else 0;
      OutsideWord(cidr, i);
    }
  }

  /** Away from the last word, whole bytes decide. */
  lemma {:induction false} OutsideWord(cidr: nat, i: nat)
    requires cidr % 32 == 0 || i / 8 < 4 * (cidr / 32) || i / 8 >= 4 * (cidr / 32) + 4
    ensures i / 8 < cidr / 8 <==> i < cidr
  {
  }

  // ---------- from mask to length

  /** hweight32 */
  function Hweight(v: nat): nat {
    if v == 0 then 0 else v % 2 + Hweight(v / 2)
  }

  /** horrible_mask_to_cidr */
  function MaskToCidr(mask: seq<u8>): nat
    requires |mask| == 16
  {
    Hweight(DecodeLittleEndian(mask[..4])) + Hweight(DecodeLittleEndian(mask[4..8]))
      + Hweight(DecodeLittleEndian(mask[8..12])) + Hweight(DecodeLittleEndian(mask[12..]))
  }

  function Count(s: Key): nat {
    if s == [] then 0 else Count(s[..|s| - 1]) + if s[|s| - 1] then 1 else 0
  }

  lemma {:induction false} CountConcat(a: Key, b: Key)
    ensures Count(a + b) == Count(a) + Count(b)
    decreases |b|
  {
    if b == [] {
      assert a + b == a;
    } else {
      assert (a + b)[..|a + b| - 1] == a + b[..|b| - 1];
      CountConcat(a, b[..|b| - 1]);
    }
  }

  function Digits(d: nat, n: nat): (k: Key)
    ensures |k| == n
  {
    seq(n, i requires 0 <= i < n => Bit(d, n - 1 - i))
  }

  lemma {:induction false} DigitsCount(d: nat, n: nat)
    requires d < Pow2(n)
    ensures Count(Digits(d, n)) == Hweight(d)
  {
    if n > 0 {
      DigitsCount(d / 2, n - 1);
      var k := Digits(d, n);
      assert k[..n - 1] == Digits(d / 2, n - 1) by {
        forall i | 0 <= i < n - 1 ensures k[i] == Digits(d / 2, n - 1)[i] {
          assert Bit(d, n - 1 - i) == Bit(d / 2, n - 2 - i);
        }
      }
      assert n - 1 - (n - 1) == 0;
      assert k[n - 1] == Bit(d, 0) == (d % 2 == 1);
    }
  }

  lemma {:induction false} HweightJoin(a: nat, v: nat, n: nat)
    requires a < Shl(1, n)
    ensures Hweight(a + Shl(v, n)) == Hweight(a) + Hweight(v)
    decreases n
  {
    if n > 0 {
      var x := Shl(v, n - 1);
      assert Shl(v, n) == 2 * x;
      HweightJoin(a / 2, v, n - 1);
      assert (a + 2 * x) / 2 == a / 2 + x && (a + 2 * x) % 2 == a % 2;
    }
  }

  lemma {:induction false} HweightCount(s: seq<u8>)
    ensures Hweight(DecodeLittleEndian(s)) == Count(ToBits(s))
  {
    hide *;
    if s == [] {
      HweightNone();
    } else {
      HweightCount(s[1..]);
      DecodeFirst(s);
      ByteFirst(s[0] as nat, DecodeLittleEndian(s[1..]));
      assert s == [s[0]] + s[1..];
      ToBitsConcat([s[0]], s[1..]);
      CountConcat(ToBits([s[0]]), ToBits(s[1..]));
      ByteCount(s[0]);
    }
  }

  lemma {:induction false} HweightNone()
    ensures Hweight(DecodeLittleEndian([])) == Count(ToBits([]))
  {
  }

  lemma {:induction false} DecodeFirst(s: seq<u8>)
    requires s != []
    ensures DecodeLittleEndian(s) == s[0] as nat + 256 * DecodeLittleEndian(s[1..])
  {
  }

  lemma {:induction false} ByteFirst(d: nat, v: nat)
    requires d < 256
    ensures Hweight(d + 256 * v) == Hweight(d) + Hweight(v)
  {
    assert Shl(1, 8) == 256 && Shl(v, 8) == 256 * v;
    hide Shl;
    HweightJoin(d, v, 8);
  }

  lemma {:induction false} ByteCount(d: u8)
    ensures Count(ToBits([d])) == Hweight(d as nat)
  {
    assert Pow2(8) == 256;
    DigitsCount(d as nat, 8);
    hide Count;
    hide Bit;
    assert ToBits([d]) == Digits(d as nat, 8);
  }

  lemma {:induction false} MaskToCidrCount(mask: seq<u8>)
    requires |mask| == 16
    ensures MaskToCidr(mask) == Count(ToBits(mask))
  {
    hide ToBits;
    hide Hweight;
    hide DecodeLittleEndian;
    hide Count;
    var a, b, c, d := mask[..4], mask[4..8], mask[8..12], mask[12..];
    HweightCount(a);
    HweightCount(b);
    HweightCount(c);
    HweightCount(d);
    ToBitsConcat(a, b);
    ToBitsConcat(a + b, c);
    ToBitsConcat(a + b + c, d);
    CountConcat(ToBits(a), ToBits(b));
    CountConcat(ToBits(a + b), ToBits(c));
    CountConcat(ToBits(a + b + c), ToBits(d));
    assert mask == a + b + c + d;
  }

  lemma {:induction false} CountFirst(s: Key, c: nat)
    requires c <= |s| && forall i | 0 <= i < |s| :: s[i] == (i < c)
    ensures Count(s) == c
    decreases |s|
  {
    if s != [] {
      CountFirst(s[..|s| - 1], if c == |s| then c - 1 else c);
    }
  }

  /** The number of set bits gives the length back. */
  lemma {:induction false} MaskRoundTrip(cidr: nat)
    requires cidr <= 128
    ensures MaskToCidr(CidrToMask(cidr)) == cidr
  {
    hide ToBits;
    hide CidrToMask;
    hide MaskToCidr;
    MaskToCidrCount(CidrToMask(cidr));
    forall i | 0 <= i < 128 ensures ToBits(CidrToMask(cidr))[i] == (i < cidr) {
      MaskBits(cidr, i);
    }
    CountFirst(ToBits(CidrToMask(cidr)), cidr);
  }
}
