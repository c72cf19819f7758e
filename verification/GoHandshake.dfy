/** The daemon's handshake, wireguard-go/noise-protocol.go: hash, chain key, state and
    indices are overwritten step by step. Random choices, clocks and the trusted
    application's Diffie-Hellman are parameters. */
module GoHandshake {
  import opened Options
  import opened NoiseCrypto
  import opened NoisePattern

  datatype State = Zeroed | InitiationCreated | InitiationConsumed | ResponseCreated | ResponseConsumed

  datatype Initiation = Initiation(kind: nat, sender: nat, ephemeral: Bytes, identity: Bytes, timestamp: Bytes)

  datatype Response = Response(kind: nat, sender: nat, receiver: nat, ephemeral: Bytes, empty: Bytes)

  const MESSAGE_INITIATION: nat := 1
  const MESSAGE_RESPONSE: nat := 2

  /** The zero value of tai64n's Timestamp. */
  const NO_TIMESTAMP: Bytes := seq(12, _ => 0)

  class Keypair {
    const send: Bytes
    const receive: Bytes
    const isInitiator: bool
    const localIndex: nat
    const remoteIndex: nat

    constructor (send: Bytes, receive: Bytes, isInitiator: bool, localIndex: nat, remoteIndex: nat)
      ensures this.send == send && this.receive == receive && this.isInitiator == isInitiator
      ensures this.localIndex == localIndex && this.remoteIndex == remoteIndex
    {
      this.send := send;
      this.receive := receive;
      this.isInitiator := isInitiator;
      this.localIndex := localIndex;
      this.remoteIndex := remoteIndex;
    }
  }

  class Handshake {
    var state: State
    var hash: Bytes
    var chainKey: Bytes
    var presharedKey: Bytes
    var localEphemeral: Bytes
    var localIndex: nat
    var remoteIndex: nat
    const remoteStatic: Bytes
    var remoteEphemeral: Bytes
    const precomputedStaticStatic: Bytes
    var lastTimestamp: Bytes
    var lastInitiationConsumption: int

    constructor (remoteStatic: Bytes, presharedKey: Bytes, precomputed: Bytes)
      ensures state == Zeroed && this.remoteStatic == remoteStatic && this.presharedKey == presharedKey
      ensures precomputedStaticStatic == precomputed && localIndex == 0 && lastTimestamp == NO_TIMESTAMP
    {
      state := Zeroed;
      hash, chainKey, localEphemeral, remoteEphemeral, lastTimestamp := [], [], [], [], NO_TIMESTAMP;
      localIndex, remoteIndex, lastInitiationConsumption := 0, 0, 0;
      this.remoteStatic := remoteStatic;
      this.presharedKey := presharedKey;
      precomputedStaticStatic := precomputed;
    }

    method MixHash(c: Crypto, data: Bytes)
      modifies this`hash
      ensures hash == c.mix(old(hash), data)
    {
      hash := c.mix(hash, data);
    }

    method MixKey(c: Crypto, data: Bytes)
      modifies this`chainKey
      ensures chainKey == Hkdf(c, old(chainKey), data, 1)
    {
      KdfIsHkdf(c, chainKey, data);
      chainKey := Kdf1(c, chainKey, data);
    }
  }

  class Peer {
    const handshake: Handshake
    var current: Keypair?
    var previous: Keypair?
    var next: Keypair?

    constructor (handshake: Handshake)
      ensures this.handshake == handshake && current == null && previous == null && next == null
    {
      this.handshake := handshake;
      current, previous, next := null, null, null;
    }
  }

  datatype Entry = Entry(peer: Peer, handshake: Handshake?, keypair: Keypair?)

  class Device {
    const crypto: Crypto
    const privateKey: Bytes
    var peers: map<Bytes, Peer>
    var table: map<nat, Entry>

    constructor (crypto: Crypto, privateKey: Bytes)
      ensures this.crypto == crypto && this.privateKey == privateKey && peers == map[] && table == map[]
    {
      this.crypto := crypto;
      this.privateKey := privateKey;
      peers := map[];
      table := map[];
    }

    /** NewIndexForHandshake: the first random draw that is not in use; running out of draws is
        a failure of the random source. */
    method NewIndexForHandshake(peer: Peer, draws: seq<nat>) returns (index: nat, ok: bool)
      modifies this`table
      ensures !ok ==> table == old(table) && forall d | d in draws :: d in old(table)
      ensures ok ==>
        index !in old(table) && index in draws && table == old(table)[index := Entry(peer, peer.handshake, null)]
    {
      for i := 0 to |draws|
        invariant table == old(table) && forall j | 0 <= j < i :: draws[j] in table
      {
        index := draws[i];
        if index !in table {
          table := table[index := Entry(peer, peer.handshake, null)];
          return index, true;
        }
      }
      index := if draws == [] then 0 else draws[|draws| - 1];
      return index, false;
    }

    method Delete(index: nat)
      modifies this`table
      ensures table == old(table) - {index}
    {
      table := table - {index};
    }

    method DeleteKeypair(k: Keypair?)
      modifies this`table
      ensures table == if k == null then old(table) else old(table) - {k.localIndex}
    {
      if k != null {
        Delete(k.localIndex);
      }
    }

    method SwapIndexForKeypair(index: nat, k: Keypair)
      modifies this`table
      ensures table == if index in old(table) then old(table)[index := Entry(old(table)[index].peer, null, k)]
        else old(table)
    {
      if index !in table {
        return;
      }
      table := table[index := Entry(table[index].peer, null, k)];
    }
  }

  // ---------- the parties of the reference handshake

  /** The initiator before its first message. */
  ghost function Initiator(d: Device, h: Handshake): Party
    reads h
  {
    Initialize(d.crypto, true, d.privateKey, Some(h.remoteStatic), h.presharedKey, h.remoteStatic)
  }

  /** The responder before it has read anything. */
  ghost function Responder(d: Device, psk: Bytes): Party {
    Initialize(d.crypto, false, d.privateKey, None, psk, d.crypto.pub(d.privateKey))
  }

  /** The party a stored handshake stands for between the two messages. */
  ghost function Midway(d: Device, h: Handshake, initiator: bool): Party
    reads h
  {
    Party(initiator, d.privateKey, if initiator then Some(h.localEphemeral) else None, Some(h.remoteStatic),
          if initiator then None else Some(h.remoteEphemeral), h.presharedKey, Sym(h.chainKey, h.hash, None, 0))
  }

  /** The shared secret of the static keys is computed when the peer is added. */
  ghost predicate Precomputed(d: Device, h: Handshake) {
    h.precomputedStaticStatic == d.crypto.dh(d.privateKey, h.remoteStatic)
  }

  /** What guards against replayed initiations is left alone. */
  twostate predicate SameStamp(h: Handshake)
    reads h
  {
    h.lastTimestamp == old(h.lastTimestamp) && h.lastInitiationConsumption == old(h.lastInitiationConsumption)
  }

  /** Entries of the index table are older ones, or for the peer. */
  twostate predicate ForPeer(d: Device, peer: Peer)
    reads d
  {
    forall i | i in d.table ::
      (i in old(d.table) && d.table[i] == old(d.table[i])) || d.table[i] == Entry(peer, peer.handshake, null)
  }

  // ---------- message one

  /** The two encryptions of the first message and the mixing around them. */
  method FillInitiation(c: Crypto, h: Handshake, privateKey: Bytes, now: Bytes)
    returns (pk: Bytes, identity: Bytes, timestamp: Bytes)
    requires h.precomputedStaticStatic == c.dh(privateKey, h.remoteStatic)
    modifies h`hash, h`chainKey
    ensures var p := Party(true, privateKey, None, Some(h.remoteStatic), None, h.presharedKey,
                           Sym(old(h.chainKey), c.mix(old(h.hash), h.remoteStatic), None, 0));
      var r := Write(c, p, FIRST, h.localEphemeral, now);
      && r.Some? && r.value.1 == [pk, identity, timestamp] && r.value.0.sym.ck == h.chainKey
        && r.value.0.sym.h == h.hash
  {
    FirstWritten(c, Party(true, privateKey, None, Some(h.remoteStatic), None, h.presharedKey,
                          Sym(h.chainKey, c.mix(h.hash, h.remoteStatic), None, 0)), h.localEphemeral, now);
    hide Write;
    h.MixHash(c, h.remoteStatic);
    pk := c.pub(h.localEphemeral);
    h.MixKey(c, pk);
    h.MixHash(c, pk);
    var ss := c.dh(h.localEphemeral, h.remoteStatic);
    KdfIsHkdf(c, h.chainKey, ss);
    var keys := Kdf2(c, h.chainKey, ss);
    h.chainKey := keys.0;
    identity := c.seal(keys.1, 0, c.pub(privateKey), h.hash);
    h.MixHash(c, identity);
    KdfIsHkdf(c, h.chainKey, h.precomputedStaticStatic);
    keys := Kdf2(c, h.chainKey, h.precomputedStaticStatic);
    h.chainKey := keys.0;
    timestamp := c.seal(keys.1, 0, now, h.hash);
    h.MixHash(c, timestamp);
  }

  /** CreateMessageInitiation: the message and the state it leaves are those of the reference. */
  method CreateMessageInitiation(d: Device, peer: Peer, ephemeral: Option<Bytes>, draws: seq<nat>, now: Bytes)
    returns (msg: Option<Initiation>)
    requires Precomputed(d, peer.handshake)
    modifies d`table, peer.handshake
    ensures msg.Some? <==> (!IsZero(peer.handshake.precomputedStaticStatic) && ephemeral.Some?
                            && exists i :: i in draws && i !in old(d.table) - {old(peer.handshake.localIndex)})
    ensures msg.None? ==> peer.handshake.state == old(peer.handshake.state)
    ensures peer.handshake.presharedKey == old(peer.handshake.presharedKey)
    ensures SameStamp(peer.handshake) && ForPeer(d, peer)
    ensures msg.Some? ==>
      var h, m := peer.handshake, msg.value;
      && h.state == InitiationCreated && h.localEphemeral == ephemeral.value
      && m.kind == MESSAGE_INITIATION && m.sender == h.localIndex
      && d.table == (old(d.table) - {old(h.localIndex)})[h.localIndex := Entry(peer, h, null)]
      && var r := Write(d.crypto, Initiator(d, h), FIRST, ephemeral.value, now);
         && r.Some? && r.value.1 == [m.ephemeral, m.identity, m.timestamp]
         && r.value.0.sym.ck == h.chainKey && r.value.0.sym.h == h.hash
  {
    hide Write;
    var h, c := peer.handshake, d.crypto;
    if IsZero(h.precomputedStaticStatic) {
      return None;
    }
    h.chainKey := c.hash(Ascii(NAME));
    h.hash := c.mix(h.chainKey, Ascii(PROLOGUE));
    if ephemeral.None? {
      return None;
    }
    h.localEphemeral := ephemeral.value;
    d.Delete(h.localIndex);
    var index, ok := d.NewIndexForHandshake(peer, draws);
    h.localIndex := index;
    if !ok {
      return None;
    }
    var pk, identity, timestamp := FillInitiation(c, h, d.privateKey, now);
    h.state := InitiationCreated;
    msg := Some(Initiation(MESSAGE_INITIATION, h.localIndex, pk, identity, timestamp));
  }

  /** The first message of the reference, written out. */
  lemma {:induction false} FirstWritten(c: Crypto, p: Party, e: Bytes, payload: Bytes)
    requires p.initiator && p.rs.Some?
    ensures var pk := c.pub(e);
      var s2 := MixKey(c, MixPublic(c, p.sym, pk), c.dh(e, p.rs.value));
      var (s3, t) := EncryptAndHash(c, s2, c.pub(p.s));
      var (s5, u) := EncryptAndHash(c, MixKey(c, s3, c.dh(p.s, p.rs.value)), payload);
      Write(c, p, FIRST, e, payload) == Some((p.(e := Some(e), sym := s5), [pk, t, u]))
  {
    hide MixKey;
    hide MixPublic;
    hide EncryptAndHash;
    var pk := c.pub(e);
    var p1 := p.(e := Some(e), sym := MixPublic(c, p.sym, pk));
    var p2 := p1.(sym := MixKey(c, p1.sym, c.dh(e, p.rs.value)));
    var (s3, t) := EncryptAndHash(c, p2.sym, c.pub(p.s));
    var p3 := p2.(sym := s3);
    var p4 := p3.(sym := MixKey(c, s3, c.dh(p.s, p.rs.value)));
    var (s5, u) := EncryptAndHash(c, p4.sym, payload);
    assert FIRST[1..] == [ES, S, SS] && FIRST[1..][1..] == [S, SS] && [S, SS][1..] == [SS] && [SS][1..] == [];
    assert Write(c, p4, [], e, payload) == Some((p4.(sym := s5), [u]));
    assert Write(c, p3, [SS], e, payload) == Write(c, p4, [], e, payload);
    assert Write(c, p2, [S, SS], e, payload) == Sent(t, Write(c, p3, [SS], e, payload));
    assert Write(c, p1, [ES, S, SS], e, payload) == Write(c, p2, [S, SS], e, payload);
    assert Write(c, p, FIRST, e, payload) == Sent(pk, Write(c, p1, [ES, S, SS], e, payload));
    assert [pk] + ([t] + [u]) == [pk, t, u];
  }

  /** The responder up to and including the initiator's static key. */
  ghost function StaticRead(c: Crypto, p: Party, pk: Bytes, t: Bytes): Option<(Sym, Bytes)> {
    DecryptAndHash(c, MixKey(c, MixPublic(c, p.sym, pk), c.dh(p.s, pk)), t)
  }

  /** Reading the first message of the reference, written out. */
  ghost function FirstRead(c: Crypto, p: Party, pk: Bytes, t: Bytes, u: Bytes): Option<(Party, Bytes)> {
    match StaticRead(c, p, pk, t)
    case None => None
    case Some((s3, rs)) =>
      match DecryptAndHash(c, MixKey(c, s3, c.dh(p.s, rs)), u)
      case None => None
      case Some((s5, payload)) => Some((p.(re := Some(pk), rs := Some(rs), sym := s5), payload))
  }

  lemma {:induction false} FirstReadIs(c: Crypto, p: Party, pk: Bytes, t: Bytes, u: Bytes)
    requires !p.initiator
    ensures Read(c, p, FIRST, [pk, t, u]) == FirstRead(c, p, pk, t, u)
  {
    hide MixKey;
    hide MixPublic;
    hide DecryptAndHash;
    var p1 := p.(re := Some(pk), sym := MixPublic(c, p.sym, pk));
    var p2 := p1.(sym := MixKey(c, p1.sym, c.dh(p.s, pk)));
    assert FIRST[1..] == [ES, S, SS] && FIRST[1..][1..] == [S, SS] && [S, SS][1..] == [SS] && [SS][1..] == [];
    assert [pk, t, u][1..] == [t, u] && [t, u][1..] == [u];
    assert Read(c, p, FIRST, [pk, t, u]) == Read(c, p1, [ES, S, SS], [t, u]);
    assert Read(c, p1, [ES, S, SS], [t, u]) == Read(c, p2, [S, SS], [t, u]);
    match DecryptAndHash(c, p2.sym, t)
    case None =>
    case Some((s3, rs)) =>
      var p3 := p2.(rs := Some(rs), sym := s3);
      var p4 := p3.(sym := MixKey(c, s3, c.dh(p.s, rs)));
      assert Read(c, p2, [S, SS], [t, u]) == Read(c, p3, [SS], [u]);
      assert Read(c, p3, [SS], [u]) == Read(c, p4, [], [u]);
  }

  /** tai64n's After: big-endian comparison of equal-length labels. */
  predicate After(a: Bytes, b: Bytes)
    decreases |a|
  {
    |a| > 0 && (|b| == 0 || a[0] > b[0] || (a[0] == b[0] && After(a[1..], b[1..])))
  }

  /** time.Second / 20 in nanoseconds. */
  const HANDSHAKE_INITIATION_RATE: int := 50_000_000

  /** The peers of a device are filed under their static keys. */
  ghost predicate Filed(d: Device)
    reads d
  {
    forall pk | pk in d.peers ::
      d.peers[pk].handshake.remoteStatic == pk && Precomputed(d, d.peers[pk].handshake)
  }

  /** The first half of ConsumeMessageInitiation: the initiator's static key. */
  method OpenStatic(d: Device, msg: Initiation) returns (peerPK: Option<Bytes>, hash: Bytes, chainKey: Bytes)
    ensures var r := StaticRead(d.crypto, Responder(d, []), msg.ephemeral, msg.identity);
      && (peerPK.Some? <==> r.Some?)
      && (r.Some? ==> peerPK.value == r.value.1 && hash == r.value.0.h && chainKey == r.value.0.ck)
  {
    var c := d.crypto;
    var initial := c.hash(Ascii(NAME));
    hash := c.mix(c.mix(initial, Ascii(PROLOGUE)), c.pub(d.privateKey));
    hash := c.mix(hash, msg.ephemeral);
    KdfIsHkdf(c, initial, msg.ephemeral);
    chainKey := Kdf1(c, initial, msg.ephemeral);
    var ss := c.dh(d.privateKey, msg.ephemeral);
    KdfIsHkdf(c, chainKey, ss);
    var keys := Kdf2(c, chainKey, ss);
    chainKey := keys.0;
    peerPK := c.open(keys.1, 0, msg.identity, hash);
    hash := c.mix(hash, msg.identity);
  }

  /** The second half: the timestamp under the key of the two static keys. */
  method OpenTimestamp(c: Crypto, secret: Bytes, text: Bytes, hash: Bytes, chainKey: Bytes, ghost sym: Sym)
    returns (timestamp: Option<Bytes>, hash': Bytes, chainKey': Bytes)
    requires sym.h == hash && sym.ck == chainKey
    ensures var r := DecryptAndHash(c, MixKey(c, sym, secret), text);
      && (timestamp.Some? <==> r.Some?)
      && (r.Some? ==> timestamp.value == r.value.1 && hash' == r.value.0.h && chainKey' == r.value.0.ck)
  {
    KdfIsHkdf(c, chainKey, secret);
    var keys := Kdf2(c, chainKey, secret);
    chainKey' := keys.0;
    timestamp := c.open(keys.1, 0, text, hash);
    hash' := c.mix(hash, text);
  }

  /** What the reference reads from an initiation. */
  ghost function Opened(d: Device, msg: Initiation): Option<(Party, Bytes)> {
    FirstRead(d.crypto, Responder(d, []), msg.ephemeral, msg.identity, msg.timestamp)
  }

  /** A well-formed initiation from a known peer, newer than the last one and not too soon. */
  ghost predicate Acceptable(d: Device, msg: Initiation, now: int)
    reads d, set pk | pk in d.peers :: d.peers[pk].handshake
  {
    var r := Opened(d, msg);
    && msg.kind == MESSAGE_INITIATION && r.Some? && r.value.0.rs.Some? && r.value.0.rs.value in d.peers
    && var h := d.peers[r.value.0.rs.value].handshake;
       && !IsZero(h.precomputedStaticStatic) && After(r.value.1, h.lastTimestamp)
       && now - h.lastInitiationConsumption > HANDSHAKE_INITIATION_RATE
  }

  /** The checks of ConsumeMessageInitiation. */
  method CheckInitiation(d: Device, msg: Initiation, now: int)
    returns (peer: Peer?, hash: Bytes, chainKey: Bytes, timestamp: Bytes)
    requires Filed(d)
    ensures peer != null <==> Acceptable(d, msg, now)
    ensures peer != null ==>
      var r := Opened(d, msg);
      && r.Some? && r.value.0.rs.Some? && r.value.0.rs.value in d.peers && peer == d.peers[r.value.0.rs.value]
      && r.value.0.sym.h == hash && r.value.0.sym.ck == chainKey && r.value.1 == timestamp
  {
    hide StaticRead;
    hide DecryptAndHash;
    hide MixKey;
    hide IsZero;
    hide After;
    var peerPK;
    hash, chainKey, timestamp := [], [], [];
    if msg.kind != MESSAGE_INITIATION {
      return null, [], [], [];
    }
    peerPK, hash, chainKey := OpenStatic(d, msg);
    if peerPK.None? || peerPK.value !in d.peers {
      return null, [], [], [];
    }
    peer := d.peers[peerPK.value];
    var h := peer.handshake;
    if IsZero(h.precomputedStaticStatic) {
      return null, [], [], [];
    }
    var plain;
    ghost var sym := StaticRead(d.crypto, Responder(d, []), msg.ephemeral, msg.identity).value.0;
    plain, hash, chainKey := OpenTimestamp(d.crypto, h.precomputedStaticStatic, msg.timestamp, hash, chainKey, sym);
    if plain.None? || !After(plain.value, h.lastTimestamp)
      || now - h.lastInitiationConsumption <= HANDSHAKE_INITIATION_RATE {
      return null, [], [], [];
    }
    timestamp := plain.value;
  }

  /** The update at the end of ConsumeMessageInitiation. */
  method UpdateHandshake(h: Handshake, msg: Initiation, hash: Bytes, chainKey: Bytes, timestamp: Bytes, now: int)
    modifies h
    ensures h.state == InitiationConsumed && h.remoteIndex == msg.sender && h.remoteEphemeral == msg.ephemeral
    ensures h.hash == hash && h.chainKey == chainKey
    ensures h.lastTimestamp == timestamp && h.lastInitiationConsumption == now
    ensures h.presharedKey == old(h.presharedKey) && h.localIndex == old(h.localIndex)
  {
    h.hash := hash;
    h.chainKey := chainKey;
    h.remoteIndex := msg.sender;
    h.remoteEphemeral := msg.ephemeral;
    h.lastTimestamp := timestamp;
    h.lastInitiationConsumption := now;
    h.state := InitiationConsumed;
  }

  /** ConsumeMessageInitiation: accepts exactly what the reference reads from a known peer with
      a newer timestamp, and then holds the state of the reference. */
  method ConsumeMessageInitiation(d: Device, msg: Initiation, now: int) returns (peer: Peer?)
    requires Filed(d)
    modifies set pk | pk in d.peers :: d.peers[pk].handshake
    ensures peer != null <==> old(Acceptable(d, msg, now))
    ensures forall pk | pk in d.peers && (peer == null || d.peers[pk].handshake != peer.handshake) ::
      unchanged(d.peers[pk].handshake)
    ensures peer != null ==>
      var h := peer.handshake;
      && h.remoteStatic in d.peers && d.peers[h.remoteStatic] == peer
        && Opened(d, msg).value.0.rs == Some(h.remoteStatic)
      && h.state == InitiationConsumed && h.remoteIndex == msg.sender && h.remoteEphemeral == msg.ephemeral
      && h.presharedKey == old(h.presharedKey) && h.localIndex == old(h.localIndex)
      && var r := Read(d.crypto, Responder(d, h.presharedKey), FIRST, [msg.ephemeral, msg.identity, msg.timestamp]);
         && r.Some? && r.value.0.sym.ck == h.chainKey && r.value.0.sym.h == h.hash
         && r.value.0.rs == Some(h.remoteStatic) && h.lastTimestamp == r.value.1
    ensures peer != null ==> peer.handshake.lastInitiationConsumption == now
  {
    hide FirstRead;
    hide Acceptable;
    hide Initialize;
    hide Read;
    var hash, chainKey, timestamp;
    peer, hash, chainKey, timestamp := CheckInitiation(d, msg, now);
    if peer == null {
      return;
    }
    SamePsk(d, peer.handshake.presharedKey, msg);
    UpdateHandshake(peer.handshake, msg, hash, chainKey, timestamp, now);
  }

  /** The preshared key plays no part in the first message. */
  lemma {:induction false} SamePsk(d: Device, psk: Bytes, msg: Initiation)
    ensures var f := FirstRead(d.crypto, Responder(d, []), msg.ephemeral, msg.identity, msg.timestamp);
      Read(d.crypto, Responder(d, psk), FIRST, [msg.ephemeral, msg.identity, msg.timestamp])
        == match f case None => None case Some((p, payload)) => Some((p.(psk := psk), payload))
  {
    hide DecryptAndHash;
    hide MixKey;
    hide MixPublic;
    FirstReadIs(d.crypto, Responder(d, psk), msg.ephemeral, msg.identity, msg.timestamp);
  }

  // ---------- message two

  /** The second message of the reference, written out. */
  lemma {:induction false} SecondWritten(c: Crypto, p: Party, e: Bytes, payload: Bytes)
    requires !p.initiator && p.rs.Some? && p.re.Some?
    ensures var pk := c.pub(e);
      var s3 := MixKey(c, MixKey(c, MixPublic(c, p.sym, pk), c.dh(e, p.re.value)), c.dh(e, p.rs.value));
      var (s5, u) := EncryptAndHash(c, MixKeyAndHash(c, s3, p.psk), payload);
      Write(c, p, SECOND, e, payload) == Some((p.(e := Some(e), sym := s5), [pk, u]))
  {
    hide MixKey;
    hide MixPublic;
    hide MixKeyAndHash;
    hide EncryptAndHash;
    var pk := c.pub(e);
    var p1 := p.(e := Some(e), sym := MixPublic(c, p.sym, pk));
    var p2 := p1.(sym := MixKey(c, p1.sym, c.dh(e, p.re.value)));
    var p3 := p2.(sym := MixKey(c, p2.sym, c.dh(e, p.rs.value)));
    var p4 := p3.(sym := MixKeyAndHash(c, p3.sym, p.psk));
    var (s5, u) := EncryptAndHash(c, p4.sym, payload);
    assert SECOND[1..] == [EE, SE, Psk] && [EE, SE, Psk][1..] == [SE, Psk] && [SE, Psk][1..] == [Psk]
      && [Psk][1..] == [];
    assert Write(c, p4, [], e, payload) == Some((p4.(sym := s5), [u]));
    assert Write(c, p3, [Psk], e, payload) == Write(c, p4, [], e, payload);
    assert Write(c, p2, [SE, Psk], e, payload) == Write(c, p3, [Psk], e, payload);
    assert Write(c, p1, [EE, SE, Psk], e, payload) == Write(c, p2, [SE, Psk], e, payload);
    assert Write(c, p, SECOND, e, payload) == Sent(pk, Write(c, p1, [EE, SE, Psk], e, payload));
    assert [pk] + [u] == [pk, u];
  }

  /** Reading the second message of the reference, written out. */
  lemma {:induction false} SecondRead(c: Crypto, p: Party, pk: Bytes, u: Bytes)
    requires p.initiator && p.e.Some?
    ensures var s3 := MixKey(c, MixKey(c, MixPublic(c, p.sym, pk), c.dh(p.e.value, pk)), c.dh(p.s, pk));
      Read(c, p, SECOND, [pk, u]) ==
        match DecryptAndHash(c, MixKeyAndHash(c, s3, p.psk), u)
        case None => None
        case Some((s5, payload)) => Some((p.(re := Some(pk), sym := s5), payload))
  {
    hide MixKey;
    hide MixPublic;
    hide MixKeyAndHash;
    hide DecryptAndHash;
    var p1 := p.(re := Some(pk), sym := MixPublic(c, p.sym, pk));
    var p2 := p1.(sym := MixKey(c, p1.sym, c.dh(p.e.value, pk)));
    var p3 := p2.(sym := MixKey(c, p2.sym, c.dh(p.s, pk)));
    var p4 := p3.(sym := MixKeyAndHash(c, p3.sym, p.psk));
    assert SECOND[1..] == [EE, SE, Psk] && [EE, SE, Psk][1..] == [SE, Psk] && [SE, Psk][1..] == [Psk]
      && [Psk][1..] == [];
    assert [pk, u][1..] == [u];
    assert Read(c, p, SECOND, [pk, u]) == Read(c, p1, [EE, SE, Psk], [u]);
    assert Read(c, p1, [EE, SE, Psk], [u]) == Read(c, p2, [SE, Psk], [u]);
    assert Read(c, p2, [SE, Psk], [u]) == Read(c, p3, [Psk], [u]);
    assert Read(c, p3, [Psk], [u]) == Read(c, p4, [], [u]);
  }

  /** The mixing and the empty encryption of the response. */
  method FillResponse(c: Crypto, h: Handshake, ghost d: Device) returns (pk: Bytes, empty: Bytes)
    requires c == d.crypto
    modifies h`hash, h`chainKey
    ensures var r := Write(c, old(Midway(d, h, false)), SECOND, h.localEphemeral, []);
      && r.Some? && r.value.1 == [pk, empty] && r.value.0.sym.ck == h.chainKey && r.value.0.sym.h == h.hash
  {
    SecondWritten(c, Midway(d, h, false), h.localEphemeral, []);
    hide Write;
    pk := c.pub(h.localEphemeral);
    h.MixHash(c, pk);
    h.MixKey(c, pk);
    h.MixKey(c, c.dh(h.localEphemeral, h.remoteEphemeral));
    h.MixKey(c, c.dh(h.localEphemeral, h.remoteStatic));
    KdfIsHkdf(c, h.chainKey, h.presharedKey);
    var keys := Kdf3(c, h.chainKey, h.presharedKey);
    h.chainKey := keys.0;
    h.MixHash(c, keys.1);
    empty := c.seal(keys.2, 0, [], h.hash);
    h.MixHash(c, empty);
  }

  /** CreateMessageResponse: only after an initiation, and then the reference's second message. */
  method CreateMessageResponse(d: Device, peer: Peer, ephemeral: Option<Bytes>, draws: seq<nat>)
    returns (msg: Option<Response>)
    modifies d`table, peer.handshake
    ensures SameStamp(peer.handshake) && ForPeer(d, peer)
    ensures msg.Some? <==> (old(peer.handshake.state) == InitiationConsumed && ephemeral.Some?
                            && exists i :: i in draws && i !in old(d.table) - {old(peer.handshake.localIndex)})
    ensures msg.None? ==>
      (&& peer.handshake.state == old(peer.handshake.state) && peer.handshake.hash == old(peer.handshake.hash)
                           && peer.handshake.chainKey == old(peer.handshake.chainKey))
    ensures msg.Some? ==>
      var h, m := peer.handshake, msg.value;
      && h.state == ResponseCreated && h.remoteIndex == old(h.remoteIndex)
      && m.kind == MESSAGE_RESPONSE && m.sender == h.localIndex && m.receiver == h.remoteIndex
      && d.table == (old(d.table) - {old(h.localIndex)})[h.localIndex := Entry(peer, h, null)]
      && var r := Write(d.crypto, old(Midway(d, h, false)), SECOND, ephemeral.value, []);
         && r.Some? && r.value.1 == [m.ephemeral, m.empty]
         && r.value.0.sym.ck == h.chainKey && r.value.0.sym.h == h.hash
  {
    hide Write;
    var h := peer.handshake;
    if h.state != InitiationConsumed {
      return None;
    }
    d.Delete(h.localIndex);
    var index, ok := d.NewIndexForHandshake(peer, draws);
    h.localIndex := index;
    if !ok {
      return None;
    }
    if ephemeral.None? {
      return None;
    }
    h.localEphemeral := ephemeral.value;
    var pk, empty := FillResponse(d.crypto, h, d);
    h.state := ResponseCreated;
    msg := Some(Response(MESSAGE_RESPONSE, h.localIndex, h.remoteIndex, pk, empty));
  }

  /** Entries made for a handshake point at their own peer's. */
  ghost predicate Paired(d: Device)
    reads d
  {
    forall i | i in d.table && d.table[i].handshake != null :: d.table[i].handshake == d.table[i].peer.handshake
  }

  /** The mixing and the decryption of the response. */
  method OpenResponse(d: Device, h: Handshake, msg: Response) returns (ok: bool, hash: Bytes, chainKey: Bytes)
    ensures var r := Read(d.crypto, Midway(d, h, true), SECOND, [msg.ephemeral, msg.empty]);
      ok == r.Some? && (ok ==> r.value.0.sym.ck == chainKey && r.value.0.sym.h == hash)
  {
    SecondRead(d.crypto, Midway(d, h, true), msg.ephemeral, msg.empty);
    hide Read;
    var c := d.crypto;
    hash := c.mix(h.hash, msg.ephemeral);
    KdfIsHkdf(c, h.chainKey, msg.ephemeral);
    chainKey := Kdf1(c, h.chainKey, msg.ephemeral);
    var ss := c.dh(h.localEphemeral, msg.ephemeral);
    KdfIsHkdf(c, chainKey, ss);
    chainKey := Kdf1(c, chainKey, ss);
    ss := c.dh(d.privateKey, msg.ephemeral);
    KdfIsHkdf(c, chainKey, ss);
    chainKey := Kdf1(c, chainKey, ss);
    KdfIsHkdf(c, chainKey, h.presharedKey);
    var keys := Kdf3(c, chainKey, h.presharedKey);
    chainKey := keys.0;
    hash := c.mix(hash, keys.1);
    ok := c.open(keys.2, 0, msg.empty, hash).Some?;
    hash := c.mix(hash, msg.empty);
  }

  /** ConsumeMessageResponse: accepts exactly what the reference reads for a pending initiation
      found under the receiver index. */
  method ConsumeMessageResponse(d: Device, msg: Response) returns (peer: Peer?)
    requires Paired(d)
    modifies if msg.receiver in d.table then {d.table[msg.receiver].handshake} else {}
    ensures peer != null <==>
      (&& msg.kind == MESSAGE_RESPONSE && msg.receiver in d.table && d.table[msg.receiver].handshake != null
       && old(d.table[msg.receiver].handshake.state) == InitiationCreated
       && old(Read(d.crypto, Midway(d, d.table[msg.receiver].handshake, true), SECOND,
                   [msg.ephemeral, msg.empty])).Some?)
    ensures peer == null && msg.receiver in d.table && d.table[msg.receiver].handshake != null ==>
      unchanged(d.table[msg.receiver].handshake)
    ensures msg.receiver in d.table && d.table[msg.receiver].handshake != null ==>
      SameStamp(d.table[msg.receiver].handshake)
    ensures peer != null ==>
      var h := peer.handshake;
      && peer == d.table[msg.receiver].peer && h == d.table[msg.receiver].handshake
      && h.state == ResponseConsumed && h.remoteIndex == msg.sender && h.localIndex == old(h.localIndex)
      && var r := old(Read(d.crypto, Midway(d, h, true), SECOND, [msg.ephemeral, msg.empty]));
         r.Some? && r.value.0.sym.ck == h.chainKey && r.value.0.sym.h == h.hash
  {
    hide Read;
    if msg.kind != MESSAGE_RESPONSE || msg.receiver !in d.table {
      return null;
    }
    var h := d.table[msg.receiver].handshake;
    if h == null || h.state != InitiationCreated {
      return null;
    }
    var ok, hash, chainKey := OpenResponse(d, h, msg);
    if !ok {
      return null;
    }
    h.hash := hash;
    h.chainKey := chainKey;
    h.remoteIndex := msg.sender;
    h.state := ResponseConsumed;
    return d.table[msg.receiver].peer;
  }

  // ---------- session

  /** Split of the reference: the initiator sends with the first key. */
  ghost function SendKey(c: Crypto, ck: Bytes, initiator: bool): Bytes {
    Hkdf(c, ck, [], if initiator then 1 else 2)
  }

  ghost function Swapped(table: map<nat, Entry>, index: nat, k: Keypair): map<nat, Entry> {
    if index in table then table[index := Entry(table[index].peer, null, k)] else table
  }

  ghost function Dropped(table: map<nat, Entry>, k: Keypair?): map<nat, Entry> {
    if k == null then table else table - {k.localIndex}
  }

  /** The slots a new keypair leaves behind, and the indices of those that lose theirs. */
  ghost predicate Rotated(i: bool, was: seq<Keypair?>, now: seq<Keypair?>, k: Keypair)
    requires |was| == |now| == 3
  {
    if i then now == [if was[2] != null then was[2] else was[1], k, null] else now == [null, was[1], k]
  }

  /** The end of BeginSymmetricSession: previous, current and next make room for a new keypair. */
  method RotateKeypairs(d: Device, peer: Peer, keypair: Keypair, isInitiator: bool)
    modifies d`table, peer
    ensures Rotated(isInitiator, old([peer.previous, peer.current, peer.next]),
                    [peer.previous, peer.current, peer.next], keypair)
    ensures var gone := if !isInitiator then old(peer.next) else if old(peer.next) != null then old(peer.current)
                        else null;
      d.table == Dropped(Dropped(old(d.table), gone), old(peer.previous))
  {
    var previous, next, current := peer.previous, peer.next, peer.current;
    if isInitiator {
      if next != null {
        peer.next := null;
        peer.previous := next;
        d.DeleteKeypair(current);
      } else {
        peer.previous := current;
      }
      d.DeleteKeypair(previous);
      peer.current := keypair;
    } else {
      peer.next := keypair;
      d.DeleteKeypair(next);
      peer.previous := null;
      d.DeleteKeypair(previous);
    }
  }

  /** BeginSymmetricSession: keys, indices, the index table and the rotation of the slots. */
  method BeginSymmetricSession(d: Device, peer: Peer) returns (keypair: Keypair?)
    modifies d`table, peer, peer.handshake
    ensures keypair != null <==> old(peer.handshake.state) in {ResponseConsumed, ResponseCreated}
    ensures keypair != null ==>
      var h, i := peer.handshake, old(peer.handshake.state) == ResponseConsumed;
      && keypair.isInitiator == i && keypair.localIndex == old(h.localIndex)
        && keypair.remoteIndex == old(h.remoteIndex)
      && keypair.send == SendKey(d.crypto, old(h.chainKey), i)
        && keypair.receive == SendKey(d.crypto, old(h.chainKey), !i)
      && h.state == Zeroed && h.localIndex == 0
      && (if i then peer.current == keypair && peer.next == null
                    && peer.previous == (if old(peer.next) != null then old(peer.next) else old(peer.current))
          else peer.current == old(peer.current) && peer.next == keypair && peer.previous == null)
      && var gone := if !i then old(peer.next) else if old(peer.next) != null then old(peer.current) else null;
         d.table == Dropped(Dropped(Swapped(old(d.table), old(h.localIndex), keypair), gone), old(peer.previous))
    ensures keypair == null ==> unchanged(peer) && unchanged(peer.handshake) && d.table == old(d.table)
    ensures SameStamp(peer.handshake)
  {
    var h, c := peer.handshake, d.crypto;
    var isInitiator, keys;
    KdfIsHkdf(c, h.chainKey, []);
    if h.state == ResponseConsumed {
      keys := Kdf2(c, h.chainKey, []);
      isInitiator := true;
    } else if h.state == ResponseCreated {
      var (r, s) := Kdf2(c, h.chainKey, []);
      keys := (s, r);
      isInitiator := false;
    } else {
      return null;
    }
    h.chainKey := [];
    h.hash := [];
    h.localEphemeral := [];
    h.state := Zeroed;
    keypair := new Keypair(keys.0, keys.1, isInitiator, h.localIndex, h.remoteIndex);
    d.SwapIndexForKeypair(h.localIndex, keypair);
    h.localIndex := 0;
    RotateKeypairs(d, peer, keypair, isInitiator);
  }
}
