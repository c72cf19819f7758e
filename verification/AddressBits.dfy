/** How the two tries read addresses. The kernel keeps every address byte-swapped
    into host words; the daemon keeps network order and swaps on comparison. Both
    are related here to the plain bit string of the address. */
module AddressBits {
  import opened Bits
  import opened PrefixTree

  /** Four or sixteen bytes: IPv4 or IPv6. */
  predicate IsAddress(s: seq<u8>) {
    |s| == 4 || |s| == 16
  }

  /** The bit string of an address in network byte order. */
  function ToBits(be: seq<u8>): (k: Key)
    ensures |k| == 8 * |be|
  {
    seq(8 * |be|, i requires 0 <= i < 8 * |be| => Bit(be[i / 8] as nat, 7 - i % 8))
  }

  /** swap_endian on a little-endian host: one 32-bit word, or two 64-bit words. */
  function SwapEndian(s: seq<u8>): (r: seq<u8>)
    requires IsAddress(s)
    ensures |r| == |s|
  {
    if |s| == 4 then [s[3], s[2], s[1], s[0]]
    else [s[7], s[6], s[5], s[4], s[3], s[2], s[1], s[0], s[15], s[14], s[13], s[12], s[11], s[10], s[9], s[8]]
  }

  lemma {:induction false} SwapTwice(s: seq<u8>)
    requires IsAddress(s)
    ensures SwapEndian(SwapEndian(s)) == s
  {
  }

  /** The bit string a byte-swapped key stands for. */
  function KeyBits(key: seq<u8>): (k: Key)
    requires IsAddress(key)
    ensures |k| == 8 * |key|
  {
    ToBits(SwapEndian(key))
  }

  // ---------- the branching bit

  /** bit_at_a: the byte of a swapped key that holds network bit cidr. */
  function BitAtA(cidr: nat, bits: nat): nat
    requires bits == 32 || bits == 128
  {
    Xor(cidr / 8, (bits / 8 - 1) % 8)
  }

  function BitAtB(cidr: nat): nat {
    7 - cidr % 8
  }

  /** (key[a] >> b) & 1 */
  function Choose(key: seq<u8>, a: nat, b: nat): bool
    requires a < |key|
  {
    key[a] as nat / Pow2(b) % 2 == 1
  }

  lemma {:induction false} SwappedByte(key: seq<u8>, j: nat)
    requires IsAddress(key) && j < |key|
    ensures Xor(j, (|key| - 1) % 8) < |key| && SwapEndian(key)[j] == key[Xor(j, (|key| - 1) % 8)]
  {
    XorLow(j);
    hide Xor;
    if |key| == 4 {
      assert j == 0 || j == 1 || j == 2 || j == 3;
    } else {
      assert j == 0 || j == 1 || j == 2 || j == 3 || j == 4 || j == 5 || j == 6 || j == 7
        || j == 8 || j == 9 || j == 10 || j == 11 || j == 12 || j == 13 || j == 14 || j == 15;
    }
  }

  lemma {:induction false} XorLow(j: nat)
    ensures Xor(j, 7) == j + 7 - 2 * (j % 8) && Xor(j, 3) == j + 3 - 2 * (j % 4)
  {
    hide Xor;
    XorStep(j, 7);
    XorStep(j / 2, 3);
    XorStep(j / 4, 1);
    XorZero(j / 8);
    XorStep(j, 3);
    XorStep(j / 2, 1);
    XorZero(j / 4);
  }

  /** choose_node reads bit number cidr of the address. */
  lemma {:induction false} ChooseIs(key: seq<u8>, cidr: nat)
    requires IsAddress(key) && cidr < 8 * |key|
    ensures BitAtA(cidr, 8 * |key|) < |key|
    ensures Choose(key, BitAtA(cidr, 8 * |key|), BitAtB(cidr)) == KeyBits(key)[cidr]
  {
    hide SwapEndian;
    hide IsAddress;
    hide Pow2;
    hide Xor;
    hide Bit;
    SwappedByte(key, cidr / 8);
    BitIsShift(SwapEndian(key)[cidr / 8] as nat, 7 - cidr % 8);
  }

  /** The daemon reads the same bit from network order. */
  lemma {:induction false} GoChooseIs(ip: seq<u8>, cidr: nat)
    requires cidr < 8 * |ip|
    ensures Choose(ip, cidr / 8, BitAtB(cidr)) == ToBits(ip)[cidr]
  {
    BitIsShift(ip[cidr / 8] as nat, 7 - cidr % 8);
  }

  // ---------- common bits

  /** A word whose digits mark the differences of two strings, top digit first,
      has as many leading zeros as the strings have common bits. */
  lemma {:induction false} LeadingZeros(y: nat, a: Key, b: Key)
    requires |a| == |b| && y < Pow2(|a|)
    requires forall i | 0 <= i < |a| :: Bit(y, |a| - 1 - i) == (a[i] != b[i])
    ensures Fls(y) <= |a| && |a| - Fls(y) == Common(a, b)
  {
    var n := |a|;
    FlsTop(y);
    FlsBound(y, n);
    hide Fls;
    hide Bit;
    hide Pow2;
    forall i | 0 <= i < n - Fls(y) ensures a[i] == b[i] {
      assert !Bit(y, n - 1 - i);
    }
    FlsZero(y);
    if Fls(y) > 0 {
      assert Bit(y, n - 1 - (n - Fls(y)));
    }
    CommonUnique(a, b, n - Fls(y));
  }

  lemma {:induction false} FlsZero(y: nat)
    ensures Fls(y) == 0 <==> y == 0
  {
  }

  /** The word of four or eight swapped bytes. */
  lemma {:induction false} WordDifference(s: seq<u8>, t: seq<u8>, i: nat)
    requires |s| == |t| && i < 8 * |s|
    ensures Bit(Xor(DecodeLittleEndian(s), DecodeLittleEndian(t)), i)
         == (Bit(s[i / 8] as nat, i % 8) != Bit(t[i / 8] as nat, i % 8))
  {
    XorBit(DecodeLittleEndian(s), DecodeLittleEndian(t), i);
    DecodeBit(s, i);
    DecodeBit(t, i);
  }

  function ReverseBytes(s: seq<u8>): (r: seq<u8>)
    ensures |r| == |s|
  {
    seq(|s|, i requires 0 <= i < |s| => s[|s| - 1 - i])
  }

  /** Comparing two words whose bytes are reversed network bytes. */
  lemma {:induction false} WordCommon(s: seq<u8>, t: seq<u8>)
    requires |s| == |t|
    ensures var y := Xor(DecodeLittleEndian(s), DecodeLittleEndian(t));
            && y < Pow2(8 * |s|) && Fls(y) <= 8 * |s|
            && 8 * |s| - Fls(y) == Common(ToBits(ReverseBytes(s)), ToBits(ReverseBytes(t)))
  {
    var n := |s|;
    var a, b := ToBits(ReverseBytes(s)), ToBits(ReverseBytes(t));
    var y := Xor(DecodeLittleEndian(s), DecodeLittleEndian(t));
    DecodeBound(s);
    DecodeBound(t);
    hide Pow2;
    hide Bit;
    hide Xor;
    hide DecodeLittleEndian;
    XorBound(DecodeLittleEndian(s), DecodeLittleEndian(t), 8 * n);
    forall i | 0 <= i < 8 * n ensures Bit(y, 8 * n - 1 - i) == (a[i] != b[i]) {
      WordDifference(s, t, 8 * n - 1 - i);
      assert (8 * n - 1 - i) / 8 == n - 1 - i / 8 && (8 * n - 1 - i) % 8 == 7 - i % 8;
    }
    LeadingZeros(y, a, b);
  }

  function Fls128(a: nat, b: nat): nat {
    if a != 0 then Fls(a) + 64 else Fls(b)
  }

  /** common_bits of the kernel, on swapped keys. */
  function CommonBits(a: seq<u8>, b: seq<u8>): int
    requires IsAddress(a) && |a| == |b|
  {
    if |a| == 4 then 32 - Fls(Xor(DecodeLittleEndian(a), DecodeLittleEndian(b)))
    else 128 - Fls128(Xor(DecodeLittleEndian(a[..8]), DecodeLittleEndian(b[..8])),
                      Xor(DecodeLittleEndian(a[8..]), DecodeLittleEndian(b[8..])))
  }

  lemma {:induction false} CommonConcat(a: Key, b: Key, c: Key, d: Key)
    requires |a| == |b|
    ensures Common(a + c, b + d) == if a == b then |a| + Common(c, d) else Common(a, b)
  {
    if a == [] {
      assert a + c == c && b + d == d;
    } else {
      assert (a + c)[1..] == a[1..] + c && (b + d)[1..] == b[1..] + d;
      CommonConcat(a[1..], b[1..], c, d);
      assert a == [a[0]] + a[1..] && b == [b[0]] + b[1..];
    }
  }

  lemma {:induction false} CommonAll(a: Key, b: Key)
    requires |a| == |b|
    ensures Common(a, b) == |a| <==> a == b
  {
    CommonIs(a, b);
    if a == b { CommonUnique(a, b, |a|); }
    if Common(a, b) == |a| { assert a[..|a|] == a && b[..|b|] == b; }
  }

  lemma {:induction false} ToBitsConcat(s: seq<u8>, t: seq<u8>)
    ensures ToBits(s + t) == ToBits(s) + ToBits(t)
  {
    hide Bit;
    forall i | 0 <= i < 8 * |s + t| ensures ToBits(s + t)[i] == (ToBits(s) + ToBits(t))[i] {
      if i >= 8 * |s| {
        assert (i - 8 * |s|) / 8 == i / 8 - |s| && (i - 8 * |s|) % 8 == i % 8;
      }
    }
  }

  lemma {:induction false} SwapHalves(key: seq<u8>)
    requires |key| == 16
    ensures KeyBits(key) == ToBits(ReverseBytes(key[..8])) + ToBits(ReverseBytes(key[8..]))
  {
    assert SwapEndian(key) == ReverseBytes(key[..8]) + ReverseBytes(key[8..]);
    ToBitsConcat(ReverseBytes(key[..8]), ReverseBytes(key[8..]));
  }

  /** common_bits counts the leading bits two addresses share. */
  lemma {:induction false} CommonBitsIs(a: seq<u8>, b: seq<u8>)
    requires IsAddress(a) && |a| == |b|
    ensures CommonBits(a, b) == Common(KeyBits(a), KeyBits(b))
  {
    hide DecodeLittleEndian;
    hide Xor;
    hide Fls;
    hide ToBits;
    hide Pow2;
    hide Common;
    if |a| == 4 {
      WordCommon(a, b);
      assert SwapEndian(a) == ReverseBytes(a) && SwapEndian(b) == ReverseBytes(b);
    } else {
      hide SwapEndian;
      SwapHalves(a);
      SwapHalves(b);
      hide KeyBits;
      WordCommon(a[..8], b[..8]);
      WordCommon(a[8..], b[8..]);
      HalvesCommon(a, b);
    }
  }

  lemma {:induction false} HalvesCommon(a: seq<u8>, b: seq<u8>)
    requires |a| == |b| == 16
    requires var y := Xor(DecodeLittleEndian(a[..8]), DecodeLittleEndian(b[..8]));
             64 - Fls(y) == Common(ToBits(ReverseBytes(a[..8])), ToBits(ReverseBytes(b[..8])))
    requires var y := Xor(DecodeLittleEndian(a[8..]), DecodeLittleEndian(b[8..]));
             64 - Fls(y) == Common(ToBits(ReverseBytes(a[8..])), ToBits(ReverseBytes(b[8..])))
    ensures CommonBits(a, b) == Common(ToBits(ReverseBytes(a[..8])) + ToBits(ReverseBytes(a[8..])),
                                       ToBits(ReverseBytes(b[..8])) + ToBits(ReverseBytes(b[8..])))
  {
    var a1, a2 := ToBits(ReverseBytes(a[..8])), ToBits(ReverseBytes(a[8..]));
    var b1, b2 := ToBits(ReverseBytes(b[..8])), ToBits(ReverseBytes(b[8..]));
    hide DecodeLittleEndian;
    hide Xor;
    hide ToBits;
    hide Common;
    hide ReverseBytes;
    FlsZero(Xor(DecodeLittleEndian(a[..8]), DecodeLittleEndian(b[..8])));
    hide Fls;
    CommonAll(a1, b1);
    CommonConcat(a1, b1, a2, b2);
  }

  /** prefix_matches: the node's prefix is a prefix of the key. */
  lemma {:induction false} PrefixMatches(a: seq<u8>, cidr: nat, b: seq<u8>)
    requires IsAddress(a) && |a| == |b| && cidr <= 8 * |a|
    ensures CommonBits(a, b) >= cidr <==> KeyBits(a)[..cidr] <= KeyBits(b)
  {
    hide CommonBits;
    hide KeyBits;
    CommonBitsIs(a, b);
    PrefixOfCommon(KeyBits(a), cidr, KeyBits(b));
  }

  lemma {:induction false} PrefixOfCommon(x: Key, cidr: nat, y: Key)
    requires cidr <= |x| == |y|
    ensures Common(x, y) >= cidr <==> x[..cidr] <= y
  {
    var n := Common(x, y);
    CommonIs(x, y);
    if n >= cidr {
      assert x[..cidr] == x[..n][..cidr] == y[..n][..cidr] == y[..cidr];
    } else if x[..cidr] <= y {
      CommonAtLeast(x, y, cidr);
    }
  }

  /** Cutting two strings short cuts what they share. */
  lemma {:induction false} CommonPrefixes(x: Key, i: nat, y: Key, j: nat)
    requires i <= |x| && j <= |y| && !(x[..i] <= y[..j])
    ensures (if j <= Common(x, y) then j else Common(x, y)) == Common(x[..i], y[..j]) < i
  {
    var c := Common(x, y);
    CommonIs(x, y);
    var d := if j <= c then j else c;
    if i <= d {
      Shortened(x, y, c, i, j);
    }
    forall t | 0 <= t < d ensures x[..i][t] == y[..j][t] {
      assert x[t] == x[..c][t] == y[..c][t];
    }
    CommonUnique(x[..i], y[..j], d);
  }

  lemma {:induction false} Shortened(x: Key, y: Key, c: nat, i: nat, j: nat)
    requires i <= c <= |x| && c <= |y| && i <= j <= |y| && x[..c] == y[..c]
    ensures x[..i] <= y[..j]
  {
    assert x[..i] == x[..c][..i] == y[..c][..i] == y[..j][..i];
  }

  // ---------- the daemon's common bits

  /** swapU32 and swapU64: the bytes of a word in the opposite order. */
  function SwapWord(x: nat, n: nat): nat {
    DecodeLittleEndian(ReverseBytes(EncodeLittleEndian(x, n)))
  }

  /** Leading zeros of the swapped difference of two words of network bytes. */
  function WordLeadingZeros(s: seq<u8>, t: seq<u8>): int
    requires |s| == |t|
  {
    8 * |s| - Fls(SwapWord(Xor(DecodeLittleEndian(s), DecodeLittleEndian(t)), |s|))
  }

  lemma {:induction false} WordLeadingZerosIs(s: seq<u8>, t: seq<u8>)
    requires |s| == |t|
    ensures WordLeadingZeros(s, t) == Common(ToBits(s), ToBits(t))
  {
    var n := |s|;
    var x := Xor(DecodeLittleEndian(s), DecodeLittleEndian(t));
    var r := ReverseBytes(EncodeLittleEndian(x, n));
    DecodeBound(r);
    hide Pow2;
    hide Bit;
    hide Xor;
    hide ToBits;
    hide DecodeLittleEndian;
    hide EncodeLittleEndian;
    forall i | 0 <= i < 8 * n ensures Bit(DecodeLittleEndian(r), 8 * n - 1 - i) == (ToBits(s)[i] != ToBits(t)[i]) {
      ReversedDifference(s, t, i);
    }
    LeadingZeros(DecodeLittleEndian(r), ToBits(s), ToBits(t));
  }

  /** A digit of the swapped difference tells whether two bits differ. */
  lemma {:induction false} ReversedDifference(s: seq<u8>, t: seq<u8>, i: nat)
    requires |s| == |t| && i < 8 * |s|
    ensures var x := Xor(DecodeLittleEndian(s), DecodeLittleEndian(t));
      Bit(DecodeLittleEndian(ReverseBytes(EncodeLittleEndian(x, |s|))), 8 * |s| - 1 - i)
        == (ToBits(s)[i] != ToBits(t)[i])
  {
    hide Pow2;
    hide Bit;
    hide Xor;
    hide DecodeLittleEndian;
    hide EncodeLittleEndian;
    var n := |s|;
    var x := Xor(DecodeLittleEndian(s), DecodeLittleEndian(t));
    var r := ReverseBytes(EncodeLittleEndian(x, n));
    var k := 8 * (i / 8) + 7 - i % 8;
    assert (8 * n - 1 - i) / 8 == n - 1 - i / 8 && (8 * n - 1 - i) % 8 == 7 - i % 8;
    assert k / 8 == i / 8 && k % 8 == 7 - i % 8;
    DecodeBit(r, 8 * n - 1 - i);
    EncodeBit(x, n, k);
    WordDifference(s, t, k);
  }

  /** commonBits of the daemon, on network order. */
  function GoCommonBits(a: seq<u8>, b: seq<u8>): int
    requires IsAddress(a) && |a| == |b|
  {
    if |a| == 4 then WordLeadingZeros(a, b)
    else if Xor(DecodeLittleEndian(a[..8]), DecodeLittleEndian(b[..8])) != 0 then WordLeadingZeros(a[..8], b[..8])
    else 64 + WordLeadingZeros(a[8..], b[8..])
  }

  lemma {:induction false} GoCommonBitsIs(a: seq<u8>, b: seq<u8>)
    requires IsAddress(a) && |a| == |b|
    ensures GoCommonBits(a, b) == Common(ToBits(a), ToBits(b))
  {
    hide DecodeLittleEndian;
    hide Xor;
    hide WordLeadingZeros;
    hide Common;
    hide ToBits;
    if |a| == 4 {
      WordLeadingZerosIs(a, b);
    } else {
      var a1, a2, b1, b2 := ToBits(a[..8]), ToBits(a[8..]), ToBits(b[..8]), ToBits(b[8..]);
      WordLeadingZerosIs(a[..8], b[..8]);
      WordLeadingZerosIs(a[8..], b[8..]);
      assert a == a[..8] + a[8..] && b == b[..8] + b[8..];
      ToBitsConcat(a[..8], a[8..]);
      ToBitsConcat(b[..8], b[8..]);
      SameWord(a[..8], b[..8]);
      CommonConcat(a1, b1, a2, b2);
    }
  }

  /** Two words differ exactly when their bit strings do. */
  lemma {:induction false} SameWord(s: seq<u8>, t: seq<u8>)
    requires |s| == |t|
    ensures Xor(DecodeLittleEndian(s), DecodeLittleEndian(t)) == 0 <==> ToBits(s) == ToBits(t)
  {
    hide DecodeLittleEndian;
    hide Xor;
    hide Fls;
    hide ToBits;
    hide Common;
    WordCommon(s, t);
    FlsZero(Xor(DecodeLittleEndian(s), DecodeLittleEndian(t)));
    CommonAll(ToBits(ReverseBytes(s)), ToBits(ReverseBytes(t)));
    if ToBits(ReverseBytes(s)) == ToBits(ReverseBytes(t)) {
      ReverseSame(s, t);
    }
    if ToBits(s) == ToBits(t) {
      assert ReverseBytes(ReverseBytes(s)) == s && ReverseBytes(ReverseBytes(t)) == t;
      ReverseSame(ReverseBytes(s), ReverseBytes(t));
    }
  }

  lemma {:induction false} ReverseSame(s: seq<u8>, t: seq<u8>)
    requires |s| == |t| && ToBits(ReverseBytes(s)) == ToBits(ReverseBytes(t))
    ensures ToBits(s) == ToBits(t)
  {
    hide Bit;
    var a, b, n := ToBits(ReverseBytes(s)), ToBits(ReverseBytes(t)), |s|;
    forall i | 0 <= i < 8 * n ensures ToBits(s)[i] == ToBits(t)[i] {
      var k := 8 * (n - 1 - i / 8) + i % 8;
      assert k / 8 == n - 1 - i / 8 && k % 8 == i % 8;
      assert a[k] == b[k];
    }
  }

  // ---------- masked addresses

  /** The address the kernel reports for a node: its bits in network order with
      everything past cidr cleared. */
  function MaskedAddress(key: seq<u8>, cidr: nat): (ip: seq<u8>)
    requires IsAddress(key) && cidr <= 8 * |key|
    ensures |ip| == |key|
  {
    var bytes := (cidr + 7) / 8;
    var ip := SwapEndian(key)[..bytes] + seq(|key| - bytes, _ => 0);
    if cidr == 0 then ip
    else
      AndLe(ip[bytes - 1] as nat, ByteMask(cidr));
      ip[bytes - 1 := And(ip[bytes - 1] as nat, ByteMask(cidr)) as u8]
  }

  /** The low byte of ~0U << (-cidr % 8U). */
  function ByteMask(cidr: nat): nat {
    SmallPow2((8 - cidr % 8) % 8);
    256 - Pow2((8 - cidr % 8) % 8)
  }

  lemma {:induction false} SmallPow2(s: nat)
    requires s < 8
    ensures Pow2(s) <= 128
  {
    assert Pow2(0) == 1 && Pow2(1) == 2 && Pow2(2) == 4 && Pow2(3) == 8;
    assert Pow2(4) == 16 && Pow2(5) == 32 && Pow2(6) == 64 && Pow2(7) == 128;
    hide Pow2;
    assert s == 0 || s == 1 || s == 2 || s == 3 || s == 4 || s == 5 || s == 6 || s == 7;
  }

  lemma {:induction false} HighMask(n: nat, s: nat, j: nat)
    requires s <= n
    ensures Pow2(n) >= Pow2(s) && Bit(Pow2(n) - Pow2(s), j) == (s <= j < n)
    decreases n
  {
    if n == s {
      BitZero(j);
    } else if s > 0 {
      if j > 0 {
        HighMask(n - 1, s - 1, j - 1);
        assert (Pow2(n) - Pow2(s)) / 2 == Pow2(n - 1) - Pow2(s - 1);
      } else {
        HighMask(n - 1, s - 1, 0);
      }
    } else if j > 0 {
      HighMask(n - 1, 0, j - 1);
      assert (Pow2(n) - Pow2(0)) / 2 == Pow2(n - 1) - Pow2(0);
    } else {
      HighMask(n - 1, 0, 0);
    }
  }

  /** The reported address is the prefix followed by zeros. */
  lemma {:induction false} MaskedAddressIs(key: seq<u8>, cidr: nat, i: nat)
    requires IsAddress(key) && cidr <= 8 * |key| && i < 8 * |key|
    ensures ToBits(MaskedAddress(key, cidr))[i] == (i < cidr && KeyBits(key)[i])
  {
    hide SwapEndian;
    hide Bit;
    hide And;
    var b, bytes := i / 8, (cidr + 7) / 8;
    BitZero(7 - i % 8);
    if b == bytes - 1 {
      AndBit(SwapEndian(key)[b] as nat, ByteMask(cidr), 7 - i % 8);
      MaskBit(cidr, i);
    }
  }

  lemma {:induction false} MaskBit(cidr: nat, i: nat)
    requires i / 8 == (cidr + 7) / 8 - 1
    ensures Bit(ByteMask(cidr), 7 - i % 8) <==> i < cidr
  {
    hide Bit;
    Pow2Byte();
    hide Pow2;
    var s, j := (8 - cidr % 8) % 8, 7 - i % 8;
    HighMask(8, s, j);
    var q := i / 8;
    MaskRange(q, i - 8 * q, cidr - 8 * q);
    assert Bit(ByteMask(cidr), j) == (s <= j < 8);
  }

  lemma {:induction false} Pow2Byte()
    ensures Pow2(8) == 256
  {
  }

  /** The bits that stay in the last byte. */
  lemma {:induction false} MaskRange(q: nat, r: nat, c: nat)
    requires r < 8 && 0 < c <= 8
    ensures (8 * q + r) % 8 == r && (8 - (8 * q + c) % 8) % 8 == 8 - c
  {
    if c == 8 {
      assert 8 * q + c == 8 * (q + 1);
    }
  }
}
