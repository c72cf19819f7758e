/** Two daemons running the handshake with each other: an undisturbed exchange ends in
    agreement, and an accepted response proves what both sides mixed. */
module HandshakeExchange {
  import opened Options
  import opened NoiseCrypto
  import opened NoisePattern
  import opened GoHandshake

  /** Two peers configured for each other. */
  ghost predicate Configured(a: Device, pa: Peer, b: Device, pb: Peer)
    reads a, b, pa.handshake, pb.handshake
  {
    && a != b && pa != pb && pa.handshake != pb.handshake && a.crypto == b.crypto
    && pa.handshake.remoteStatic == b.crypto.pub(b.privateKey)
      && pb.handshake.remoteStatic == a.crypto.pub(a.privateKey)
    && Precomputed(a, pa.handshake) && Filed(b) && Paired(a)
    && a.crypto.pub(a.privateKey) in b.peers && b.peers[a.crypto.pub(a.privateKey)] == pb
    && pa.handshake.presharedKey == pb.handshake.presharedKey
    && forall pk | pk in b.peers :: b.peers[pk].handshake != pa.handshake
  }

  /** The stored state of two sides at the same point, with the initiator's index and
      ephemeral key known to the responder. */
  ghost predicate InStep(ha: Handshake, hb: Handshake)
    reads ha, hb
  {
    ha.chainKey == hb.chainKey && ha.hash == hb.hash && ha.presharedKey == hb.presharedKey
      && hb.remoteIndex == ha.localIndex
  }

  /** After the first message the stored handshakes of both sides match. */
  lemma {:induction false} FirstAgrees(a: Device, pa: Peer, b: Device, psk: Bytes, ei: Bytes, now: Bytes)
    requires Agrees(a.crypto) && a.crypto == b.crypto && pa.handshake.presharedKey == psk
    requires pa.handshake.remoteStatic == b.crypto.pub(b.privateKey)
    requires Write(a.crypto, Initiator(a, pa.handshake), FIRST, ei, now).Some?
    ensures var w := Write(a.crypto, Initiator(a, pa.handshake), FIRST, ei, now).value;
      var r := Read(b.crypto, Responder(b, psk), FIRST, w.1);
      && r.Some? && r.value.1 == now && r.value.0.sym == w.0.sym && r.value.0.rs == Some(a.crypto.pub(a.privateKey))
  {
    var c, i, r := a.crypto, Initiator(a, pa.handshake), Responder(b, psk);
    assert Matching(c, i, r);
    FirstReady();
    MessageAgrees(c, i, r, FIRST, ei, now);
    FirstWritten(c, i, ei, now);
    var w := Write(c, i, FIRST, ei, now).value;
    FirstReadIs(c, r, w.1[0], w.1[1], w.1[2]);
  }

  /** After the second message both sides hold the same chain key and hash. */
  lemma {:induction false} SecondAgrees(a: Device, ha: Handshake, b: Device, hb: Handshake, er: Bytes)
    requires Agrees(a.crypto) && a.crypto == b.crypto && ha.presharedKey == hb.presharedKey
    requires ha.chainKey == hb.chainKey && ha.hash == hb.hash
    requires ha.remoteStatic == b.crypto.pub(b.privateKey) && hb.remoteStatic == a.crypto.pub(a.privateKey)
    requires hb.remoteEphemeral == a.crypto.pub(ha.localEphemeral)
    ensures var w := Write(b.crypto, Midway(b, hb, false), SECOND, er, []);
      var r := Read(a.crypto, Midway(a, ha, true), SECOND, w.value.1);
      w.Some? && r.Some? && r.value.0.sym == w.value.0.sym
  {
    var c, i, r := a.crypto, Midway(a, ha, true), Midway(b, hb, false);
    assert Matching(c, r, i);
    SecondReady();
    SecondWritten(c, r, er, []);
    MessageAgrees(c, r, i, SECOND, er, []);
  }

  /** The first message of an undisturbed exchange. */
  method SendFirst(a: Device, pa: Peer, b: Device, pb: Peer, ei: Bytes, drawsA: seq<nat>, now: Bytes, clock: int)
    requires Agrees(a.crypto) && Configured(a, pa, b, pb)
    requires !IsZero(pa.handshake.precomputedStaticStatic) && !IsZero(pb.handshake.precomputedStaticStatic)
    requires exists i :: i in drawsA && i !in a.table - {pa.handshake.localIndex}
    requires After(now, pb.handshake.lastTimestamp)
    requires clock - pb.handshake.lastInitiationConsumption > HANDSHAKE_INITIATION_RATE
    modifies a`table, pa.handshake, set pk | pk in b.peers :: b.peers[pk].handshake
    ensures var ha, hb := pa.handshake, pb.handshake;
      && InStep(ha, hb) && ha.state == InitiationCreated && hb.state == InitiationConsumed
      && hb.remoteEphemeral == a.crypto.pub(ha.localEphemeral) && hb.localIndex == old(hb.localIndex)
      && ha.localIndex in a.table && a.table[ha.localIndex] == Entry(pa, ha, null)
    ensures Paired(a)
  {
    hide Write;
    hide Read;
    hide Acceptable;
    hide Filed;
    hide IsZero;
    hide After;
    hide Agrees;
    hide Opened;
    ghost var psk := pa.handshake.presharedKey;
    var m1 := CreateMessageInitiation(a, pa, Some(ei), drawsA, now);
    FirstAgrees(a, pa, b, psk, ei, now);
    WillAccept(b, pb, m1.value, clock, now, psk);
    var peer := ConsumeMessageInitiation(b, m1.value, clock);
    FirstField(a.crypto, Initiator(a, pa.handshake), ei, now);
  }

  lemma {:induction false} FirstField(c: Crypto, p: Party, e: Bytes, payload: Bytes)
    requires p.initiator && p.rs.Some?
    ensures var w := Write(c, p, FIRST, e, payload); w.Some? && |w.value.1| == 3 && w.value.1[0] == c.pub(e)
  {
    hide Write;
    FirstWritten(c, p, e, payload);
  }

  /** The second message of an undisturbed exchange. */
  method SendSecond(a: Device, pa: Peer, b: Device, pb: Peer, er: Bytes, drawsB: seq<nat>)
    requires Agrees(a.crypto) && a != b && a.crypto == b.crypto && pa.handshake != pb.handshake && Paired(a)
    requires pa.handshake.remoteStatic == b.crypto.pub(b.privateKey)
    requires pb.handshake.remoteStatic == a.crypto.pub(a.privateKey)
    requires var ha, hb := pa.handshake, pb.handshake;
      && InStep(ha, hb) && ha.state == InitiationCreated && hb.state == InitiationConsumed
      && hb.remoteEphemeral == a.crypto.pub(ha.localEphemeral)
      && ha.localIndex in a.table && a.table[ha.localIndex] == Entry(pa, ha, null)
    requires exists i :: i in drawsB && i !in b.table - {pb.handshake.localIndex}
    modifies b`table, pa.handshake, pb.handshake
    ensures var ha, hb := pa.handshake, pb.handshake;
      && ha.chainKey == hb.chainKey && ha.hash == hb.hash && ha.state == ResponseConsumed && hb.state == ResponseCreated
      && hb.remoteIndex == ha.localIndex && ha.remoteIndex == hb.localIndex
  {
    hide Write;
    hide Read;
    hide Agrees;
    SecondAgrees(a, pa.handshake, b, pb.handshake, er);
    var m2 := CreateMessageResponse(b, pb, Some(er), drawsB);
    var peer := ConsumeMessageResponse(a, m2.value);
  }

  /** An undisturbed exchange: both messages are accepted, chain key and hash are equal, each
      side sends with the key the other receives with, and the indices are crossed. */
  method Exchange(a: Device, pa: Peer, b: Device, pb: Peer, ei: Bytes, er: Bytes, drawsA: seq<nat>, drawsB: seq<nat>,
                  now: Bytes, clock: int)
    returns (ka: Keypair, kb: Keypair, ghost ckA: Bytes, ghost ckB: Bytes, ghost hashA: Bytes, ghost hashB: Bytes)
    requires Agrees(a.crypto) && Configured(a, pa, b, pb)
    requires !IsZero(pa.handshake.precomputedStaticStatic) && !IsZero(pb.handshake.precomputedStaticStatic)
    requires exists i :: i in drawsA && i !in a.table - {pa.handshake.localIndex}
    requires exists i :: i in drawsB && i !in b.table - {pb.handshake.localIndex}
    requires After(now, pb.handshake.lastTimestamp)
    requires clock - pb.handshake.lastInitiationConsumption > HANDSHAKE_INITIATION_RATE
    modifies a`table, b`table, pa, pb, pa.handshake, set pk | pk in b.peers :: b.peers[pk].handshake
    ensures ckA == ckB && hashA == hashB
    ensures ka.send == kb.receive && ka.receive == kb.send && ka.isInitiator && !kb.isInitiator
    ensures ka.localIndex == kb.remoteIndex && ka.remoteIndex == kb.localIndex
    ensures ka.send == SendKey(a.crypto, ckA, true) && ka.receive == SendKey(a.crypto, ckA, false)
    ensures pa.current == ka && pb.next == kb
  {
    hide IsZero;
    hide After;
    hide Agrees;
    hide SendKey;
    SendFirst(a, pa, b, pb, ei, drawsA, now, clock);
    SendSecond(a, pa, b, pb, er, drawsB);
    ckA, ckB, hashA, hashB := pa.handshake.chainKey, pb.handshake.chainKey, pa.handshake.hash, pb.handshake.hash;
    ka := BeginSymmetricSession(a, pa);
    kb := BeginSymmetricSession(b, pb);
  }

  /** What the reference reads back is acceptable to the other side. */
  lemma {:induction false} WillAccept(b: Device, pb: Peer, m: Initiation, clock: int, now: Bytes, psk: Bytes)
    requires m.kind == MESSAGE_INITIATION && pb.handshake.remoteStatic in b.peers
    requires b.peers[pb.handshake.remoteStatic] == pb
    requires var r := Read(b.crypto, Responder(b, psk), FIRST, [m.ephemeral, m.identity, m.timestamp]);
      r.Some? && r.value.1 == now && r.value.0.rs == Some(pb.handshake.remoteStatic)
    requires !IsZero(pb.handshake.precomputedStaticStatic) && After(now, pb.handshake.lastTimestamp)
    requires clock - pb.handshake.lastInitiationConsumption > HANDSHAKE_INITIATION_RATE
    ensures Acceptable(b, m, clock) && Opened(b, m).Some? && Opened(b, m).value.0.rs == Some(pb.handshake.remoteStatic)
  {
    hide FirstRead;
    hide Read;
    hide IsZero;
    hide After;
    SamePsk(b, psk, m);
  }

  // ---------- what an accepted response proves

  lemma {:induction false} MixInjective(c: Crypto, h: Bytes, d: Bytes, h': Bytes, d': Bytes)
    requires Symbolic(c) && c.mix(h, d) == c.mix(h', d')
    ensures h == h' && d == d'
  {
  }

  lemma {:induction false} SealInjective(c: Crypto, k: Bytes, p: Bytes, ad: Bytes, k': Bytes, p': Bytes, ad': Bytes)
    requires Symbolic(c) && c.seal(k, 0, p, ad) == c.seal(k', 0, p', ad')
    ensures k == k' && p == p' && ad == ad'
  {
  }

  lemma {:induction false} OnlySealedOpens(c: Crypto, k: Bytes, t: Bytes, ad: Bytes)
    requires Symbolic(c) && c.open(k, 0, t, ad).Some?
    ensures t == c.seal(k, 0, c.open(k, 0, t, ad).value, ad)
  {
  }

  /** The second output of the key derivation determines its inputs. */
  lemma {:induction false} HkdfInjective(c: Crypto, ck: Bytes, x: Bytes, ck': Bytes, x': Bytes)
    requires Symbolic(c) && Hkdf(c, ck, x, 2) == Hkdf(c, ck', x', 2)
    ensures ck == ck' && x == x'
  {
    var a, b := Hkdf(c, ck, x, 1) + [2], Hkdf(c, ck', x', 1) + [2];
    assert Hkdf(c, ck, x, 2) == c.hmac(c.hmac(ck, x), a);
    assert Hkdf(c, ck', x', 2) == c.hmac(c.hmac(ck', x'), b);
    hide Hkdf;
    HmacInjective(c, c.hmac(ck, x), a, c.hmac(ck', x'), b);
    HmacInjective(c, ck, x, ck', x');
  }

  lemma {:induction false} HmacInjective(c: Crypto, k: Bytes, d: Bytes, k': Bytes, d': Bytes)
    requires Symbolic(c) && c.hmac(k, d) == c.hmac(k', d')
    ensures k == k' && d == d'
  {
  }

  /** The transcript hash after the first message, on either side. */
  ghost function Transcript(c: Crypto, responder: Bytes, pk: Bytes, t: Bytes, u: Bytes): Bytes {
    c.mix(c.mix(c.mix(c.mix(c.mix(c.hash(Ascii(NAME)), Ascii(PROLOGUE)), responder), pk), t), u)
  }

  lemma {:induction false} WrittenTranscript(c: Crypto, s: Bytes, rs: Bytes, psk: Bytes, e: Bytes, payload: Bytes)
    ensures var w := Write(c, Initialize(c, true, s, Some(rs), psk, rs), FIRST, e, payload);
      && w.Some? && |w.value.1| == 3 && w.value.1[0] == c.pub(e)
      && w.value.0.sym.h == Transcript(c, rs, c.pub(e), w.value.1[1], w.value.1[2])
    ensures var w := Write(c, Initialize(c, true, s, Some(rs), psk, rs), FIRST, e, payload);
      exists k, ad :: w.value.1[1] == c.seal(k, 0, c.pub(s), ad)
  {
    hide Write;
    hide Hkdf;
    var p := Initialize(c, true, s, Some(rs), psk, rs);
    FirstWritten(c, p, e, payload);
    var s2 := MixKey(c, MixPublic(c, p.sym, c.pub(e)), c.dh(e, rs));
    assert Write(c, p, FIRST, e, payload).value.1[1] == c.seal(s2.k.value, 0, c.pub(s), s2.h);
  }

  lemma {:induction false} ReadTranscript(c: Crypto, s: Bytes, psk: Bytes, pk: Bytes, t: Bytes, u: Bytes)
    requires Read(c, Initialize(c, false, s, None, psk, c.pub(s)), FIRST, [pk, t, u]).Some?
    ensures var r := Read(c, Initialize(c, false, s, None, psk, c.pub(s)), FIRST, [pk, t, u]);
      && r.value.0.sym.h == Transcript(c, c.pub(s), pk, t, u) && r.value.0.rs.Some?
      && exists k, ad :: c.open(k, 0, t, ad) == r.value.0.rs
  {
    hide Read;
    hide Hkdf;
    var p := Initialize(c, false, s, None, psk, c.pub(s));
    FirstReadIs(c, p, pk, t, u);
    var s2 := MixKey(c, MixPublic(c, p.sym, pk), c.dh(s, pk));
    assert c.open(s2.k.value, 0, t, s2.h) == Read(c, p, FIRST, [pk, t, u]).value.0.rs;
  }

  lemma {:induction false} TranscriptInjective(c: Crypto, r: Bytes, pk: Bytes, t: Bytes, u: Bytes, r': Bytes,
                                               pk': Bytes, t': Bytes, u': Bytes)
    requires Symbolic(c) && Transcript(c, r, pk, t, u) == Transcript(c, r', pk', t', u')
    ensures r == r' && pk == pk' && t == t' && u == u'
  {
    var h0 := c.mix(c.hash(Ascii(NAME)), Ascii(PROLOGUE));
    var h1, g1 := c.mix(h0, r), c.mix(h0, r');
    var h2, g2 := c.mix(h1, pk), c.mix(g1, pk');
    var h3, g3 := c.mix(h2, t), c.mix(g2, t');
    MixInjective(c, h3, u, g3, u');
    MixInjective(c, h2, t, g2, t');
    MixInjective(c, h1, pk, g1, pk');
    MixInjective(c, h0, r, h0, r');
  }

  /** The state that seals or opens the empty text of the response. */
  ghost function BeforeEmpty(c: Crypto, sym: Sym, pk: Bytes, ee: Bytes, se: Bytes, psk: Bytes): Sym {
    MixKeyAndHash(c, MixKey(c, MixKey(c, MixPublic(c, sym, pk), ee), se), psk)
  }

  lemma {:induction false} BeforeEmptyIs(c: Crypto, sym: Sym, pk: Bytes, ee: Bytes, se: Bytes, psk: Bytes)
    ensures exists ck :: BeforeEmpty(c, sym, pk, ee, se, psk).h == c.mix(c.mix(sym.h, pk), Hkdf(c, ck, psk, 2))
  {
    hide Hkdf;
    var s3 := MixKey(c, MixKey(c, MixPublic(c, sym, pk), ee), se);
    assert BeforeEmpty(c, sym, pk, ee, se, psk).h == c.mix(c.mix(sym.h, pk), Hkdf(c, s3.ck, psk, 2));
  }

  /** The response step: same ephemeral, same earlier transcript, same preshared key. */
  lemma {:induction false} ResponseBinds(c: Crypto, i: Party, r: Party, er: Bytes, pk: Bytes, u: Bytes)
    requires Symbolic(c) && i.initiator && i.e.Some? && !r.initiator && r.rs.Some? && r.re.Some?
    requires var w := Write(c, r, SECOND, er, []); w.Some? && |w.value.1| == 2 && w.value.1[1] == u
    requires Read(c, i, SECOND, [pk, u]).Some?
    ensures pk == c.pub(er) && i.sym.h == r.sym.h && i.psk == r.psk
  {
    hide Write;
    hide Read;
    hide Hkdf;
    SecondWritten(c, r, er, []);
    SecondRead(c, i, pk, u);
    hide BeforeEmpty;
    var a := BeforeEmpty(c, r.sym, c.pub(er), c.dh(er, r.re.value), c.dh(er, r.rs.value), r.psk);
    var b := BeforeEmpty(c, i.sym, pk, c.dh(i.e.value, pk), c.dh(i.s, pk), i.psk);
    Sealed(c, r.sym, c.pub(er), c.dh(er, r.re.value), c.dh(er, r.rs.value), r.psk, u);
    OpenedEmpty(c, i.sym, pk, c.dh(i.e.value, pk), c.dh(i.s, pk), i.psk, u);
    SealInjective(c, a.k.value, [], a.h, b.k.value, c.open(b.k.value, 0, u, b.h).value, b.h);
    BeforeEmptyIs(c, r.sym, c.pub(er), c.dh(er, r.re.value), c.dh(er, r.rs.value), r.psk);
    BeforeEmptyIs(c, i.sym, pk, c.dh(i.e.value, pk), c.dh(i.s, pk), i.psk);
    var x :| a.h == c.mix(c.mix(r.sym.h, c.pub(er)), Hkdf(c, x, r.psk, 2));
    var y :| b.h == c.mix(c.mix(i.sym.h, pk), Hkdf(c, y, i.psk, 2));
    MixInjective(c, c.mix(r.sym.h, c.pub(er)), Hkdf(c, x, r.psk, 2), c.mix(i.sym.h, pk), Hkdf(c, y, i.psk, 2));
    MixInjective(c, r.sym.h, c.pub(er), i.sym.h, pk);
    HkdfInjective(c, x, r.psk, y, i.psk);
  }

  lemma {:induction false} Sealed(c: Crypto, sym: Sym, pk: Bytes, ee: Bytes, se: Bytes, psk: Bytes, u: Bytes)
    requires EncryptAndHash(c, MixKeyAndHash(c, MixKey(c, MixKey(c, MixPublic(c, sym, pk), ee), se), psk), []).1 == u
    ensures var a := BeforeEmpty(c, sym, pk, ee, se, psk); a.k.Some? && u == c.seal(a.k.value, 0, [], a.h)
  {
    hide Hkdf;
  }

  lemma {:induction false} OpenedEmpty(c: Crypto, sym: Sym, pk: Bytes, ee: Bytes, se: Bytes, psk: Bytes, u: Bytes)
    requires Symbolic(c)
    requires DecryptAndHash(c, MixKeyAndHash(c, MixKey(c, MixKey(c, MixPublic(c, sym, pk), ee), se), psk), u).Some?
    ensures var b := BeforeEmpty(c, sym, pk, ee, se, psk);
      && b.k.Some? && c.open(b.k.value, 0, u, b.h).Some?
      && u == c.seal(b.k.value, 0, c.open(b.k.value, 0, u, b.h).value, b.h)
  {
    hide Hkdf;
    var b := BeforeEmpty(c, sym, pk, ee, se, psk);
    OnlySealedOpens(c, b.k.value, u, b.h);
  }

  /** With perfect primitives: an initiator i that accepts a response whose seal was made by a
      responder r agrees with it on both static keys, both ephemeral keys, the encrypted
      timestamp and the preshared key, whatever happened to the messages on the way. */
  lemma {:induction false} ResponseAuthenticates(
    c: Crypto, sI: Bytes, rsI: Bytes, pskI: Bytes, ei: Bytes, now: Bytes,
    sR: Bytes, pskR: Bytes, g: Initiation, er: Bytes, i: Party, r: Party, pk: Bytes, empty: Bytes)
    requires Symbolic(c)
    requires var w := Write(c, Initialize(c, true, sI, Some(rsI), pskI, rsI), FIRST, ei, now);
      w.Some? && i.initiator && i.e.Some? && i.psk == pskI && i.sym.h == w.value.0.sym.h
    requires var q := Read(c, Initialize(c, false, sR, None, pskR, c.pub(sR)), FIRST,
                           [g.ephemeral, g.identity, g.timestamp]);
      q.Some? && !r.initiator && r.rs == q.value.0.rs && r.re.Some? && r.psk == pskR && r.sym.h == q.value.0.sym.h
    requires r.rs.Some?
    requires var w := Write(c, r, SECOND, er, []); w.Some? && |w.value.1| == 2 && w.value.1[1] == empty
    requires Read(c, i, SECOND, [pk, empty]).Some?
    ensures var w := Write(c, Initialize(c, true, sI, Some(rsI), pskI, rsI), FIRST, ei, now).value.1;
      && rsI == c.pub(sR) && r.rs == Some(c.pub(sI))
      && w == [g.ephemeral, g.identity, g.timestamp] && g.ephemeral == c.pub(ei) && pk == c.pub(er)
      && pskI == pskR
  {
    hide Write;
    hide Read;
    hide Transcript;
    ResponseBinds(c, i, r, er, pk, empty);
    WrittenTranscript(c, sI, rsI, pskI, ei, now);
    ReadTranscript(c, sR, pskR, g.ephemeral, g.identity, g.timestamp);
    var w := Write(c, Initialize(c, true, sI, Some(rsI), pskI, rsI), FIRST, ei, now).value.1;
    TranscriptInjective(c, rsI, c.pub(ei), w[1], w[2], c.pub(sR), g.ephemeral, g.identity, g.timestamp);
    var k, ad :| w[1] == c.seal(k, 0, c.pub(sI), ad);
    var k', ad' :| c.open(k', 0, g.identity, ad') == r.rs;
    OnlySealedOpens(c, k', g.identity, ad');
    SealInjective(c, k, c.pub(sI), ad, k', r.rs.value, ad');
  }

  /** The converse: an undisturbed run meets every condition of ResponseAuthenticates, for any keys. */
  lemma {:induction false} UndisturbedIsAccepted(c: Crypto, sI: Bytes, sR: Bytes, psk: Bytes, ei: Bytes, er: Bytes,
                                                 now: Bytes)
    requires Agrees(c)
    ensures var rs := c.pub(sR);
      var w := Write(c, Initialize(c, true, sI, Some(rs), psk, rs), FIRST, ei, now);
      && w.Some? && |w.value.1| == 3 && w.value.0.initiator && w.value.0.e.Some? && w.value.0.psk == psk
      && var q := Read(c, Initialize(c, false, sR, None, psk, rs), FIRST, w.value.1);
      && q.Some? && !q.value.0.initiator && q.value.0.rs.Some? && q.value.0.re.Some? && q.value.0.psk == psk
      && var v := Write(c, q.value.0, SECOND, er, []);
      v.Some? && |v.value.1| == 2 && Read(c, w.value.0, SECOND, v.value.1).Some?
  {
    hide Write;
    hide Read;
    hide Hkdf;
    var rs := c.pub(sR);
    var a, b := Initialize(c, true, sI, Some(rs), psk, rs), Initialize(c, false, sR, None, psk, rs);
    FirstWritten(c, a, ei, now);
    var w := Write(c, a, FIRST, ei, now).value;
    FirstReady();
    MessageAgrees(c, a, b, FIRST, ei, now);
    FirstReadIs(c, b, w.1[0], w.1[1], w.1[2]);
    assert w.1 == [w.1[0], w.1[1], w.1[2]];
    var r := Read(c, b, FIRST, w.1).value.0;
    SecondWritten(c, r, er, []);
    SecondReady();
    MessageAgrees(c, r, w.0, SECOND, er, []);
  }

  /** The first message, and whatever arrives in its place. */
  method Offer(a: Device, pa: Peer, b: Device, ei: Bytes, draws: seq<nat>, now: Bytes, clock: int, g: Initiation)
    returns (m1: Option<Initiation>, pb: Peer?)
    requires a != b && a.crypto == b.crypto && Precomputed(a, pa.handshake) && Paired(a) && Filed(b)
    requires forall pk | pk in b.peers :: b.peers[pk].handshake != pa.handshake
    modifies a`table, pa.handshake, set pk | pk in b.peers :: b.peers[pk].handshake
    ensures m1.Some? <==> (!IsZero(pa.handshake.precomputedStaticStatic)
                           && exists i :: i in draws && i !in old(a.table) - {old(pa.handshake.localIndex)})
    ensures pb != null <==> old(Acceptable(b, g, clock))
    ensures pa.handshake.presharedKey == old(pa.handshake.presharedKey)
    ensures m1.Some? ==>
      && m1.value.sender in a.table && a.table[m1.value.sender] == Entry(pa, pa.handshake, null)
      && pa.handshake.state == InitiationCreated
    ensures pb != null ==>
      var h := pb.handshake;
      && h.state == InitiationConsumed && h.remoteStatic in b.peers && b.peers[h.remoteStatic] == pb
      && h.presharedKey == old(b.peers[h.remoteStatic].handshake.presharedKey)
      && h.localIndex == old(b.peers[h.remoteStatic].handshake.localIndex)
    ensures pb != null ==> pb.handshake != pa.handshake && exists pk | pk in b.peers :: b.peers[pk] == pb
    ensures m1.Some? ==> Paired(a)
    ensures m1.Some? ==> forall i | i in a.table ::
      (i in old(a.table) && a.table[i] == old(a.table)[i]) || a.table[i].handshake == pa.handshake
    ensures m1.Some? && pb != null ==>
      pa.handshake.localEphemeral == ei && pb.handshake.remoteEphemeral == g.ephemeral
    ensures m1.Some? && pb != null ==>
      var w := Write(a.crypto, Initiator(a, pa.handshake), FIRST, ei, now);
      && w.Some? && w.value.1 == [m1.value.ephemeral, m1.value.identity, m1.value.timestamp]
      && w.value.0.sym.ck == pa.handshake.chainKey && w.value.0.sym.h == pa.handshake.hash
    ensures pb != null ==>
      var q := Read(b.crypto, Responder(b, pb.handshake.presharedKey), FIRST, [g.ephemeral, g.identity, g.timestamp]);
      && q.Some? && q.value.0.rs == Some(pb.handshake.remoteStatic)
      && q.value.0.sym.ck == pb.handshake.chainKey && q.value.0.sym.h == pb.handshake.hash
  {
    hide Write;
    hide Read;
    hide Acceptable;
    hide IsZero;
    hide Opened;
    m1 := CreateMessageInitiation(a, pa, Some(ei), draws, now);
    pb := ConsumeMessageInitiation(b, g, clock);
  }

  /** The second message, and whatever arrives in its place. */
  method Settle(a: Device, pa: Peer, b: Device, pb: Peer, er: Bytes, draws: seq<nat>, reply: Response)
    returns (m2: Option<Response>, accepted: Peer?)
    requires a != b && Paired(a) && pb.handshake != pa.handshake
    requires pa.handshake.state == InitiationCreated && pb.handshake.state == InitiationConsumed
    modifies b`table, pb.handshake, set i | i in a.table && a.table[i].handshake != null :: a.table[i].handshake
    ensures m2.Some? <==> exists i :: i in draws && i !in old(b.table) - {old(pb.handshake.localIndex)}
    ensures m2.None? ==> accepted == null
    ensures m2.Some? ==>
      var w := Write(b.crypto, old(Midway(b, pb.handshake, false)), SECOND, er, []);
      && w.Some? && w.value.1 == [m2.value.ephemeral, m2.value.empty]
      && (accepted == pa ==> w.value.0.sym.ck == pb.handshake.chainKey && w.value.0.sym.h == pb.handshake.hash)
    ensures accepted == pa ==>
      var q := Read(a.crypto, old(Midway(a, pa.handshake, true)), SECOND, [reply.ephemeral, reply.empty]);
      q.Some? && q.value.0.sym.ck == pa.handshake.chainKey && q.value.0.sym.h == pa.handshake.hash
    ensures
      (&& m2.Some? && reply.kind == MESSAGE_RESPONSE && reply.receiver in a.table
       && a.table[reply.receiver] == Entry(pa, pa.handshake, null)
       && Read(a.crypto, old(Midway(a, pa.handshake, true)), SECOND, [reply.ephemeral, reply.empty]).Some?) ==>
      accepted == pa
  {
    hide Write;
    hide Read;
    accepted := null;
    m2 := CreateMessageResponse(b, pb, Some(er), draws);
    if m2.Some? {
      accepted := ConsumeMessageResponse(a, reply);
    }
  }

  /** Both messages arrived as they were made, the headers aside. */
  predicate Unreplaced(g: Initiation, m1: Initiation, reply: Response, m2: Response) {
    && g.ephemeral == m1.ephemeral && g.identity == m1.identity && g.timestamp == m1.timestamp
    && reply.ephemeral == m2.ephemeral && reply.empty == m2.empty
  }

  /** The first message has been offered: the second one, and what its acceptance means. */
  method Judge(a: Device, pa: Peer, b: Device, pb: Peer, ei: Bytes, er: Bytes, draws: seq<nat>, now: Bytes,
               m1: Initiation, g: Initiation, reply: Response)
    returns (m2: Option<Response>, accepted: Peer?)
    requires Symbolic(a.crypto) && Agrees(a.crypto) && a != b && a.crypto == b.crypto && Paired(a)
    requires pb.handshake != pa.handshake
    requires pa.handshake.state == InitiationCreated && pb.handshake.state == InitiationConsumed
    requires m1.sender in a.table && a.table[m1.sender] == Entry(pa, pa.handshake, null)
    requires pa.handshake.localEphemeral == ei && pb.handshake.remoteEphemeral == g.ephemeral
    requires var w := Write(a.crypto, Initiator(a, pa.handshake), FIRST, ei, now);
      && w.Some? && w.value.1 == [m1.ephemeral, m1.identity, m1.timestamp]
      && w.value.0.sym.ck == pa.handshake.chainKey && w.value.0.sym.h == pa.handshake.hash
    requires
      var q := Read(b.crypto, Responder(b, pb.handshake.presharedKey), FIRST, [g.ephemeral, g.identity, g.timestamp]);
      && q.Some? && q.value.0.rs == Some(pb.handshake.remoteStatic)
      && q.value.0.sym.ck == pb.handshake.chainKey && q.value.0.sym.h == pb.handshake.hash
    modifies b`table, pb.handshake, set i | i in a.table && a.table[i].handshake != null :: a.table[i].handshake
    ensures m2.Some? <==> exists i :: i in draws && i !in old(b.table) - {old(pb.handshake.localIndex)}
    ensures accepted == pa && m2.Some? && reply.empty == m2.value.empty ==>
      && Unreplaced(g, m1, reply, m2.value) && old(pa.handshake.presharedKey == pb.handshake.presharedKey)
      && pa.handshake.remoteStatic == b.crypto.pub(b.privateKey)
      && pb.handshake.remoteStatic == a.crypto.pub(a.privateKey)
      && pa.handshake.chainKey == pb.handshake.chainKey && pa.handshake.hash == pb.handshake.hash
    ensures
      (&& m2.Some? && Unreplaced(g, m1, reply, m2.value)
       && old(pa.handshake.presharedKey == pb.handshake.presharedKey)
       && pa.handshake.remoteStatic == b.crypto.pub(b.privateKey)
       && reply.kind == MESSAGE_RESPONSE && reply.receiver == m1.sender) ==>
      accepted == pa
  {
    hide Write;
    hide Read;
    hide Agrees;
    hide Symbolic;
    hide Initialize;
    ghost var psk := pb.handshake.presharedKey;
    ghost var first, i, r := Initiator(a, pa.handshake), Midway(a, pa.handshake, true), Midway(b, pb.handshake, false);
    InitialParty(a, pa.handshake.remoteStatic, pa.handshake.presharedKey, first);
    m2, accepted := Settle(a, pa, b, pb, er, draws, reply);
    if m2.Some? {
      Verdict(a.crypto, first, ei, now, b, psk, g, er, i, r, m1, m2.value, reply);
    }
  }

  /** Both messages may be replaced on the way, by any g and any reply. If the initiator accepts a reply whose
      encrypted part the responder made, then nothing was replaced: both messages arrived as they were sent,
      each side has the other's static key, and preshared key, chain key and hash are the same on both sides.
      Conversely, with the right static key, one preshared key and nothing replaced, the reply is accepted. */
  method Intercepted(a: Device, pa: Peer, b: Device, ei: Bytes, er: Bytes, drawsA: seq<nat>, drawsB: seq<nat>,
                     now: Bytes, clock: int, g: Initiation, reply: Response)
    returns (m1: Option<Initiation>, pb: Peer?, m2: Option<Response>, accepted: Peer?, ghost pskB: Bytes)
    requires Symbolic(a.crypto) && Agrees(a.crypto) && a != b && a.crypto == b.crypto
    requires Precomputed(a, pa.handshake) && Paired(a) && Filed(b)
    requires forall pk | pk in b.peers :: b.peers[pk].handshake != pa.handshake
    modifies a`table, b`table, pa.handshake, set pk | pk in b.peers :: b.peers[pk].handshake,
             set i | i in a.table && a.table[i].handshake != null :: a.table[i].handshake
    ensures m1.Some? <==> (!IsZero(pa.handshake.precomputedStaticStatic)
                           && exists i :: i in drawsA && i !in old(a.table) - {old(pa.handshake.localIndex)})
    ensures pb != null ==>
      var pk := pb.handshake.remoteStatic;
      && pk in b.peers && b.peers[pk] == pb && pskB == old(b.peers[pk].handshake.presharedKey)
      && (m2.Some? <==> m1.Some?
                        && exists i :: i in drawsB && i !in old(b.table) - {old(b.peers[pk].handshake.localIndex)})
    ensures m2.Some? ==> m1.Some? && pb != null
    ensures accepted == pa && m2.Some? && reply.empty == m2.value.empty ==>
      && Unreplaced(g, m1.value, reply, m2.value) && old(pa.handshake.presharedKey) == pskB
      && pa.handshake.remoteStatic == b.crypto.pub(b.privateKey)
      && pb.handshake.remoteStatic == a.crypto.pub(a.privateKey)
      && pa.handshake.chainKey == pb.handshake.chainKey && pa.handshake.hash == pb.handshake.hash
    ensures
      (&& m2.Some? && Unreplaced(g, m1.value, reply, m2.value) && old(pa.handshake.presharedKey) == pskB
       && pa.handshake.remoteStatic == b.crypto.pub(b.privateKey)
       && reply.kind == MESSAGE_RESPONSE && reply.receiver == m1.value.sender) ==>
      accepted == pa
    ensures pb != null <==> old(Acceptable(b, g, clock))
  {
    hide Write;
    hide Read;
    hide Agrees;
    hide Symbolic;
    hide Initialize;
    hide Acceptable;
    hide IsZero;
    m2, accepted, pskB := None, null, [];
    m1, pb := Offer(a, pa, b, ei, drawsA, now, clock, g);
    if pb == null {
      return;
    }
    pskB := pb.handshake.presharedKey;
    if m1.None? {
      return;
    }
    m2, accepted := Judge(a, pa, b, pb, ei, er, drawsB, now, m1.value, g, reply);
  }

  lemma {:induction false} InitialParty(a: Device, rs: Bytes, psk: Bytes, first: Party)
    requires first == Initialize(a.crypto, true, a.privateKey, Some(rs), psk, rs)
    ensures first.s == a.privateKey && first.rs == Some(rs) && first.psk == psk && first.initiator
  {
  }

  /** When a reply with the responder's encrypted part can be read, and what that means. */
  lemma {:induction false} Verdict(c: Crypto, first: Party, ei: Bytes, now: Bytes, b: Device, pskB: Bytes,
                                   g: Initiation, er: Bytes, i: Party, r: Party, m1: Initiation, m2: Response,
                                   reply: Response)
    requires Symbolic(c) && Agrees(c) && b.crypto == c
    requires first.rs.Some? && first == Initialize(c, true, first.s, first.rs, first.psk, first.rs.value)
    requires var w := Write(c, first, FIRST, ei, now);
      && w.Some? && w.value.1 == [m1.ephemeral, m1.identity, m1.timestamp]
      && i == Party(true, first.s, Some(ei), first.rs, None, first.psk,
                    Sym(w.value.0.sym.ck, w.value.0.sym.h, None, 0))
    requires var q := Read(c, Responder(b, pskB), FIRST, [g.ephemeral, g.identity, g.timestamp]);
      q.Some? && r == Party(false, b.privateKey, None, q.value.0.rs, Some(g.ephemeral), pskB,
                            Sym(q.value.0.sym.ck, q.value.0.sym.h, None, 0))
    requires r.rs.Some?
    requires var w := Write(c, r, SECOND, er, []); w.Some? && w.value.1 == [m2.ephemeral, m2.empty]
    ensures var q := Read(c, i, SECOND, [reply.ephemeral, reply.empty]);
      reply.empty == m2.empty && q.Some? ==>
        && Unreplaced(g, m1, reply, m2) && first.psk == pskB
        && first.rs == Some(c.pub(b.privateKey)) && r.rs == Some(c.pub(first.s))
        && q.value.0.sym == Write(c, r, SECOND, er, []).value.0.sym
    ensures Unreplaced(g, m1, reply, m2) && first.psk == pskB && first.rs == Some(c.pub(b.privateKey)) ==>
      Read(c, i, SECOND, [reply.ephemeral, reply.empty]).Some?
  {
    hide Write;
    hide Read;
    hide Agrees;
    hide Symbolic;
    hide Initialize;
    if reply.empty == m2.empty && Read(c, i, SECOND, [reply.ephemeral, reply.empty]).Some? {
      Concluded(c, first, ei, now, b, pskB, g, er, i, r, reply.ephemeral, reply.empty);
    }
    if Unreplaced(g, m1, reply, m2) && first.psk == pskB && first.rs == Some(c.pub(b.privateKey)) {
      Delivered(c, first, ei, now, b, pskB, g, er, i, r, reply.ephemeral, reply.empty);
    }
  }

  /** What the accepted reply means for the parties behind the two devices. */
  lemma {:induction false} Concluded(c: Crypto, first: Party, ei: Bytes, now: Bytes, b: Device, pskB: Bytes,
                                     g: Initiation, er: Bytes,
                                     i: Party, r: Party, pk: Bytes, empty: Bytes)
    requires Symbolic(c) && Agrees(c) && b.crypto == c
    requires first.rs.Some? && first == Initialize(c, true, first.s, first.rs, first.psk, first.rs.value)
    requires var w := Write(c, first, FIRST, ei, now);
      w.Some? && i == Party(true, first.s, Some(ei), first.rs, None, first.psk,
                            Sym(w.value.0.sym.ck, w.value.0.sym.h, None, 0))
    requires var q := Read(c, Responder(b, pskB), FIRST, [g.ephemeral, g.identity, g.timestamp]);
      q.Some? && r == Party(false, b.privateKey, None, q.value.0.rs, Some(g.ephemeral), pskB,
                            Sym(q.value.0.sym.ck, q.value.0.sym.h, None, 0))
    requires r.rs.Some?
    requires var w := Write(c, r, SECOND, er, []); w.Some? && |w.value.1| == 2 && w.value.1[1] == empty
    requires Read(c, i, SECOND, [pk, empty]).Some?
    ensures Write(c, first, FIRST, ei, now).value.1 == [g.ephemeral, g.identity, g.timestamp]
    ensures pk == c.pub(er) && first.rs == Some(c.pub(b.privateKey)) && r.rs == Some(c.pub(first.s))
    ensures first.psk == pskB
    ensures Write(c, r, SECOND, er, []).value.1 == [pk, empty]
    ensures Read(c, i, SECOND, [pk, empty]).value.0.sym == Write(c, r, SECOND, er, []).value.0.sym
  {
    hide Write;
    hide Read;
    hide Symbolic;
    hide Agrees;
    ResponseAuthenticates(c, first.s, first.rs.value, first.psk, ei, now, b.privateKey, pskB, g, er, i, r, pk, empty);
    FirstMatches(c, first, b, pskB, ei, now);
    SecondField(c, r, er);
    assert Write(c, r, SECOND, er, []).value.1 == [pk, empty];
    SecondMatches(c, r, i, er);
  }

  /** A reply that was not replaced can be read, if the parties agree on the responder's static key and on the
      preshared key. */
  lemma {:induction false} Delivered(c: Crypto, first: Party, ei: Bytes, now: Bytes, b: Device, pskB: Bytes,
                                     g: Initiation, er: Bytes, i: Party, r: Party, pk: Bytes, empty: Bytes)
    requires Agrees(c) && b.crypto == c && first.rs == Some(c.pub(b.privateKey)) && first.psk == pskB
    requires first == Initialize(c, true, first.s, first.rs, first.psk, first.rs.value)
    requires var w := Write(c, first, FIRST, ei, now);
      && w.Some? && w.value.1 == [g.ephemeral, g.identity, g.timestamp]
      && i == Party(true, first.s, Some(ei), first.rs, None, first.psk,
                    Sym(w.value.0.sym.ck, w.value.0.sym.h, None, 0))
    requires var q := Read(c, Responder(b, pskB), FIRST, [g.ephemeral, g.identity, g.timestamp]);
      q.Some? && r == Party(false, b.privateKey, None, q.value.0.rs, Some(g.ephemeral), pskB,
                            Sym(q.value.0.sym.ck, q.value.0.sym.h, None, 0))
    requires r.rs.Some?
    requires var w := Write(c, r, SECOND, er, []); w.Some? && w.value.1 == [pk, empty]
    ensures Read(c, i, SECOND, [pk, empty]).Some?
  {
    hide Write;
    hide Read;
    hide Agrees;
    FirstMatches(c, first, b, pskB, ei, now);
    FirstField(c, first, ei, now);
    SecondMatches(c, r, i, er);
  }

  lemma {:induction false} SecondField(c: Crypto, p: Party, e: Bytes)
    requires !p.initiator && p.rs.Some? && p.re.Some?
    ensures var w := Write(c, p, SECOND, e, []); w.Some? && |w.value.1| == 2 && w.value.1[0] == c.pub(e)
  {
    hide Write;
    SecondWritten(c, p, e, []);
  }

  lemma {:induction false} FirstMatches(c: Crypto, first: Party, b: Device, psk: Bytes, ei: Bytes, now: Bytes)
    requires Agrees(c) && b.crypto == c && first.psk == psk && first.rs == Some(c.pub(b.privateKey))
    requires first == Initialize(c, true, first.s, first.rs, first.psk, first.rs.value)
    requires Write(c, first, FIRST, ei, now).Some?
    ensures var w := Write(c, first, FIRST, ei, now).value;
      var q := Read(c, Responder(b, psk), FIRST, w.1);
      q.Some? && q.value.0.sym == w.0.sym && (q.value.0.rs.Some? ==> q.value.0.rs.value == c.pub(first.s))
  {
    hide Write;
    hide Read;
    hide Agrees;
    FirstReady();
    MessageAgrees(c, first, Responder(b, psk), FIRST, ei, now);
    FirstWritten(c, first, ei, now);
  }

  lemma {:induction false} SecondMatches(c: Crypto, r: Party, i: Party, er: Bytes)
    requires Agrees(c) && Matching(c, r, i) && i.initiator && i.rs.Some? && Write(c, r, SECOND, er, []).Some?
    ensures var w := Write(c, r, SECOND, er, []).value;
      var q := Read(c, i, SECOND, w.1); q.Some? && q.value.0.sym == w.0.sym
  {
    hide Write;
    hide Read;
    hide Agrees;
    SecondReady();
    MessageAgrees(c, r, i, SECOND, er, []);
  }
}
