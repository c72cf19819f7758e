/** The primitives the handshake is built from, as parameters, and the key
    derivation of sections 2.2 and 2.3 of RFC 5869 on top of HMAC. */
module NoiseCrypto {
  import opened Bits
  import opened Options

  type Bytes = seq<u8>

  /** isZero */
  predicate IsZero(b: Bytes) {
    forall i | 0 <= i < |b| :: b[i] == 0
  }

  /** Primitives. mix is the hash of the running hash value followed by data; seal and
      open take a key, a nonce, a text and associated data. */
  datatype Crypto = Crypto(
    hash: Bytes -> Bytes,
    mix: (Bytes, Bytes) -> Bytes,
    hmac: (Bytes, Bytes) -> Bytes,
    pub: Bytes -> Bytes,
    dh: (Bytes, Bytes) -> Bytes,
    seal: (Bytes, nat, Bytes, Bytes) -> Bytes,
    open: (Bytes, nat, Bytes, Bytes) -> Option<Bytes>)

  /** All a handshake between honest parties needs. */
  ghost predicate Agrees(c: Crypto) {
    && (forall a, b :: c.dh(a, c.pub(b)) == c.dh(b, c.pub(a)))
    && (forall k, n, p, ad :: c.open(k, n, c.seal(k, n, p, ad), ad) == Some(p))
  }

  /** Perfect primitives: no two inputs give the same output, and only a sealed text opens. */
  ghost predicate Symbolic(c: Crypto) {
    && (forall h, d, h', d' :: c.mix(h, d) == c.mix(h', d') ==> h == h' && d == d')
    && (forall k, d, k', d' :: c.hmac(k, d) == c.hmac(k', d') ==> k == k' && d == d')
    && (forall k, n, p, ad, k', n', p', ad' ::
          c.seal(k, n, p, ad) == c.seal(k', n', p', ad') ==> k == k' && n == n' && p == p' && ad == ad')
    && (forall k, n, t, ad :: c.open(k, n, t, ad).Some? ==> t == c.seal(k, n, c.open(k, n, t, ad).value, ad))
  }

  // ---------- key derivation

  /** T(n) of HKDF-Expand with empty info, after HKDF-Extract. */
  ghost function Hkdf(c: Crypto, salt: Bytes, ikm: Bytes, n: nat): Bytes {
    if n == 0 then [] else c.hmac(c.hmac(salt, ikm), Hkdf(c, salt, ikm, n - 1) + [(n % 256) as u8])
  }

  /** KDF1 */
  function Kdf1(c: Crypto, key: Bytes, input: Bytes): Bytes {
    var t0 := c.hmac(key, input);
    c.hmac(t0, [1])
  }

  /** KDF2 */
  function Kdf2(c: Crypto, key: Bytes, input: Bytes): (Bytes, Bytes) {
    var prk := c.hmac(key, input);
    var t0 := c.hmac(prk, [1]);
    (t0, c.hmac(prk, t0 + [2]))
  }

  /** KDF3 */
  function Kdf3(c: Crypto, key: Bytes, input: Bytes): (Bytes, Bytes, Bytes) {
    var prk := c.hmac(key, input);
    var t0 := c.hmac(prk, [1]);
    var t1 := c.hmac(prk, t0 + [2]);
    (t0, t1, c.hmac(prk, t1 + [3]))
  }

  lemma {:induction false} KdfIsHkdf(c: Crypto, key: Bytes, input: Bytes)
    ensures Kdf1(c, key, input) == Hkdf(c, key, input, 1)
    ensures Kdf2(c, key, input) == (Hkdf(c, key, input, 1), Hkdf(c, key, input, 2))
    ensures Kdf3(c, key, input) == (Hkdf(c, key, input, 1), Hkdf(c, key, input, 2), Hkdf(c, key, input, 3))
  {
    assert Hkdf(c, key, input, 0) + [1] == [1];
    assert Hkdf(c, key, input, 1) == c.hmac(c.hmac(key, input), [1]);
    assert Hkdf(c, key, input, 2) == c.hmac(c.hmac(key, input), Hkdf(c, key, input, 1) + [2]);
    assert Hkdf(c, key, input, 3) == c.hmac(c.hmac(key, input), Hkdf(c, key, input, 2) + [3]);
  }

  const HASH_SIZE: nat := 32

  /** kdf of the kernel: the three outputs pass through one buffer whose last byte is the
      block number. Missing or empty destinations end the derivation early. */
  method Kdf(c: Crypto, data: Bytes, firstLen: nat, secondLen: nat, thirdLen: nat, chainingKey: Bytes)
    returns (first: Bytes, second: Bytes, third: Bytes)
    requires firstLen <= HASH_SIZE && secondLen <= HASH_SIZE && thirdLen <= HASH_SIZE
    requires forall k, d :: |c.hmac(k, d)| == HASH_SIZE
    ensures first == Hkdf(c, chainingKey, data, 1)[..firstLen]
    ensures firstLen > 0 ==> second == Hkdf(c, chainingKey, data, 2)[..secondLen]
    ensures firstLen > 0 && secondLen > 0 ==> third == Hkdf(c, chainingKey, data, 3)[..thirdLen]
  {
    first, second, third := [], [], [];
    var output := new u8[HASH_SIZE + 1];
    var secret := c.hmac(chainingKey, data);
    assert Hkdf(c, chainingKey, data, 0) + [1] == [1];
    if firstLen == 0 {
      return;
    }
    output[0] := 1;
    assert output[..1] == [1];
    Fill(output, c.hmac(secret, output[..1]));
    assert output[..HASH_SIZE] == Hkdf(c, chainingKey, data, 1);
    first := output[..firstLen];
    if secondLen == 0 {
      return;
    }
    output[HASH_SIZE] := 2;
    assert output[..HASH_SIZE + 1] == Hkdf(c, chainingKey, data, 1) + [2];
    Fill(output, c.hmac(secret, output[..HASH_SIZE + 1]));
    assert output[..HASH_SIZE] == Hkdf(c, chainingKey, data, 2);
    second := output[..secondLen];
    if thirdLen == 0 {
      return;
    }
    output[HASH_SIZE] := 3;
    assert output[..HASH_SIZE + 1] == Hkdf(c, chainingKey, data, 2) + [3];
    Fill(output, c.hmac(secret, output[..HASH_SIZE + 1]));
    assert output[..HASH_SIZE] == Hkdf(c, chainingKey, data, 3);
    third := output[..thirdLen];
  }

  method Fill(output: array<u8>, digest: Bytes)
    requires output.Length == HASH_SIZE + 1 && |digest| == HASH_SIZE
    modifies output
    ensures output[..HASH_SIZE] == digest && output[HASH_SIZE] == old(output[HASH_SIZE])
  {
    forall i | 0 <= i < HASH_SIZE { output[i] := digest[i]; }
  }

  // ---------- the assumptions can be met

  /** A pairing of byte strings: the first length in unary, then both strings. */
  ghost function Pair(a: Bytes, b: Bytes): Bytes {
    Unary(|a|) + a + b
  }

  ghost function Unary(n: nat): (u: Bytes)
    ensures |u| == n + 1 && u[n] == 0 && forall i | 0 <= i < n :: u[i] == 1
  {
    if n == 0 then [0] else [1] + Unary(n - 1)
  }

  lemma {:induction false} PairInjective(a: Bytes, b: Bytes, a': Bytes, b': Bytes)
    requires Pair(a, b) == Pair(a', b')
    ensures a == a' && b == b'
  {
    var p, q := Pair(a, b), Pair(a', b');
    assert p[|a|] == 0 && q[|a'|] == 0;
    assert forall i | 0 <= i < |a| :: p[i] == 1;
    assert forall i | 0 <= i < |a'| :: q[i] == 1;
    assert |a| == |a'|;
    assert a == p[|a| + 1..2 * |a| + 1] && a' == q[|a'| + 1..2 * |a'| + 1];
    assert b == p[2 * |a| + 1..] && b' == q[2 * |a'| + 1..];
  }

  ghost function PairSeal(k: Bytes, n: nat, p: Bytes, ad: Bytes): Bytes {
    Pair(k, Pair(Unary(n), Pair(p, ad)))
  }

  lemma {:induction false} PairSealInjective(k: Bytes, n: nat, p: Bytes, ad: Bytes, k': Bytes, n': nat, p': Bytes,
                                             ad': Bytes)
    requires PairSeal(k, n, p, ad) == PairSeal(k', n', p', ad')
    ensures k == k' && n == n' && p == p' && ad == ad'
  {
    hide Pair;
    PairInjective(k, Pair(Unary(n), Pair(p, ad)), k', Pair(Unary(n'), Pair(p', ad')));
    PairInjective(Unary(n), Pair(p, ad), Unary(n'), Pair(p', ad'));
    PairInjective(p, ad, p', ad');
  }

  ghost function PairOpen(k: Bytes, n: nat, t: Bytes, ad: Bytes): Option<Bytes> {
    if exists p :: t == PairSeal(k, n, p, ad) then
      var p :| t == PairSeal(k, n, p, ad);
      Some(p)
    else None
  }

  ghost function PairCrypto(): Crypto {
    Crypto(x => x, (h, d) => Pair(h, d), (k, d) => Pair(k, d), x => x, (a, b) => [1],
           (k, n: nat, p, ad) => PairSeal(k, n, p, ad), (k, n: nat, t, ad) => PairOpen(k, n, t, ad))
  }

  /** There are primitives with every property the theorems ask for, and no shared secret is zero. */
  lemma {:induction false} PrimitivesExist()
    ensures Agrees(PairCrypto()) && Symbolic(PairCrypto())
    ensures forall a, b :: !IsZero(PairCrypto().dh(a, b))
  {
    hide Pair;
    hide PairSeal;
    hide PairOpen;
    var c := PairCrypto();
    forall a, b ensures !IsZero(c.dh(a, b)) {
      assert c.dh(a, b)[0] == 1;
    }
    forall h, d, h', d' | Pair(h, d) == Pair(h', d') ensures h == h' && d == d' {
      PairInjective(h, d, h', d');
    }
    forall k, n, p, ad, k', n', p', ad' | PairSeal(k, n, p, ad) == PairSeal(k', n', p', ad')
      ensures k == k' && n == n' && p == p' && ad == ad'
    {
      PairSealInjective(k, n, p, ad, k', n', p', ad');
    }
    forall k, n, p, ad ensures PairOpen(k, n, PairSeal(k, n, p, ad), ad) == Some(p) {
      OpenSealed(k, n, p, ad);
    }
    forall k, n, t, ad | PairOpen(k, n, t, ad).Some? ensures t == PairSeal(k, n, PairOpen(k, n, t, ad).value, ad) {
      OpenedIsSealed(k, n, t, ad);
    }
  }

  lemma {:induction false} OpenSealed(k: Bytes, n: nat, p: Bytes, ad: Bytes)
    ensures PairOpen(k, n, PairSeal(k, n, p, ad), ad) == Some(p)
  {
    hide PairSeal;
    var t := PairSeal(k, n, p, ad);
    assert PairOpen(k, n, t, ad).Some? && t == PairSeal(k, n, PairOpen(k, n, t, ad).value, ad);
    PairSealInjective(k, n, p, ad, k, n, PairOpen(k, n, t, ad).value, ad);
  }

  lemma {:induction false} OpenedIsSealed(k: Bytes, n: nat, t: Bytes, ad: Bytes)
    requires PairOpen(k, n, t, ad).Some?
    ensures t == PairSeal(k, n, PairOpen(k, n, t, ad).value, ad)
  {
    hide PairSeal;
  }
}
