/** The handshake of the Noise Protocol Framework, revision 34: the symmetric state of
    section 5.2, the token rules of section 5.3 with those of section 9.2 for preshared
    keys, and the pattern IKpsk2. The daemon's hand-written handshake is compared with
    this module. */
module NoisePattern {
  import opened Bits
  import opened Options
  import opened NoiseCrypto

  datatype Sym = Sym(ck: Bytes, h: Bytes, k: Option<Bytes>, n: nat)

  ghost function MixHash(c: Crypto, s: Sym, data: Bytes): Sym {
    s.(h := c.mix(s.h, data))
  }

  ghost function MixKey(c: Crypto, s: Sym, ikm: Bytes): Sym {
    s.(ck := Hkdf(c, s.ck, ikm, 1), k := Some(Hkdf(c, s.ck, ikm, 2)), n := 0)
  }

  ghost function MixKeyAndHash(c: Crypto, s: Sym, ikm: Bytes): Sym {
    MixHash(c, s, Hkdf(c, s.ck, ikm, 2)).(ck := Hkdf(c, s.ck, ikm, 1), k := Some(Hkdf(c, s.ck, ikm, 3)), n := 0)
  }

  ghost function EncryptAndHash(c: Crypto, s: Sym, text: Bytes): (Sym, Bytes) {
    if s.k.None? then (MixHash(c, s, text), text)
    else
      var t := c.seal(s.k.value, s.n, text, s.h);
      (MixHash(c, s, t).(n := s.n + 1), t)
  }

  ghost function DecryptAndHash(c: Crypto, s: Sym, t: Bytes): Option<(Sym, Bytes)> {
    if s.k.None? then Some((MixHash(c, s, t), t))
    else
      match c.open(s.k.value, s.n, t, s.h)
      case None => None
      case Some(text) => Some((MixHash(c, s, t).(n := s.n + 1), text))
  }

  datatype Token = E | S | EE | ES | SE | SS | Psk

  /** Own private keys, the other side's public keys, the preshared key. */
  datatype Party = Party(initiator: bool, s: Bytes, e: Option<Bytes>, rs: Option<Bytes>, re: Option<Bytes>, psk: Bytes,
                         sym: Sym)

  /** The shared secret a token names, if both keys are known. */
  ghost function Secret(c: Crypto, p: Party, t: Token): Option<Bytes> {
    var ownE := t == EE || t == (if p.initiator then ES else SE);
    var theirE := t == EE || t == (if p.initiator then SE else ES);
    var own := if ownE then p.e else Some(p.s);
    var their := if theirE then p.re else p.rs;
    if own.None? || their.None? then None else Some(c.dh(own.value, their.value))
  }

  /** A token that sends nothing. */
  ghost function Silent(c: Crypto, p: Party, t: Token): Option<Party>
    requires t != E && t != S
  {
    if t == Psk then Some(p.(sym := MixKeyAndHash(c, p.sym, p.psk)))
    else
      match Secret(c, p, t)
      case None => None
      case Some(secret) => Some(p.(sym := MixKey(c, p.sym, secret)))
  }

  ghost function MixPublic(c: Crypto, s: Sym, e: Bytes): Sym {
    MixKey(c, MixHash(c, s, e), e)
  }

  /** WriteMessage: the sent fields in order, the last one being the payload. */
  ghost function Write(c: Crypto, p: Party, tokens: seq<Token>, eph: Bytes, payload: Bytes): Option<(Party, seq<Bytes>)>
    decreases |tokens|
  {
    if tokens == [] then
      var (sym, t) := EncryptAndHash(c, p.sym, payload);
      Some((p.(sym := sym), [t]))
    else
      match tokens[0]
      case E =>
        var q := p.(e := Some(eph), sym := MixPublic(c, p.sym, c.pub(eph)));
        Sent(c.pub(eph), Write(c, q, tokens[1..], eph, payload))
      case S =>
        var (sym, t) := EncryptAndHash(c, p.sym, c.pub(p.s));
        Sent(t, Write(c, p.(sym := sym), tokens[1..], eph, payload))
      case _ =>
        match Silent(c, p, tokens[0])
        case None => None
        case Some(q) => Write(c, q, tokens[1..], eph, payload)
  }

  ghost function Sent(field: Bytes, rest: Option<(Party, seq<Bytes>)>): Option<(Party, seq<Bytes>)> {
    match rest case None => None case Some((p, fields)) => Some((p, [field] + fields))
  }

  /** ReadMessage */
  ghost function Read(c: Crypto, p: Party, tokens: seq<Token>, fields: seq<Bytes>): Option<(Party, Bytes)>
    decreases |tokens|
  {
    if tokens == [] then
      if |fields| != 1 then None
      else
        match DecryptAndHash(c, p.sym, fields[0])
        case None => None
        case Some((sym, text)) => Some((p.(sym := sym), text))
    else if tokens[0] == E || tokens[0] == S then
      if fields == [] then None
      else if tokens[0] == E then
        Read(c, p.(re := Some(fields[0]), sym := MixPublic(c, p.sym, fields[0])), tokens[1..], fields[1..])
      else
        match DecryptAndHash(c, p.sym, fields[0])
        case None => None
        case Some((sym, rs)) => Read(c, p.(rs := Some(rs), sym := sym), tokens[1..], fields[1..])
    else
      match Silent(c, p, tokens[0])
      case None => None
      case Some(q) => Read(c, q, tokens[1..], fields)
  }

  // ---------- agreement

  /** Two parties at the same point of one handshake. */
  ghost predicate Matching(c: Crypto, a: Party, b: Party) {
    && a.initiator != b.initiator && a.sym == b.sym && a.psk == b.psk
    && (a.rs.Some? ==> a.rs.value == c.pub(b.s)) && (b.rs.Some? ==> b.rs.value == c.pub(a.s))
    && (a.re.Some? <==> b.e.Some?) && (a.re.Some? ==> a.re.value == c.pub(b.e.value))
    && (b.re.Some? <==> a.e.Some?) && (b.re.Some? ==> b.re.value == c.pub(a.e.value))
  }

  /** The reader learns the writer's static key before it is used. */
  predicate Ready(initiator: bool, known: bool, tokens: seq<Token>)
    decreases |tokens|
  {
    tokens != [] ==>
      (NeedsStatic(initiator, tokens[0]) ==> known) && Ready(initiator, known || tokens[0] == S, tokens[1..])
  }

  /** Tokens for which a party uses the other side's static key. */
  predicate NeedsStatic(initiator: bool, t: Token) {
    t == SS || t == if initiator then ES else SE
  }

  /** A token that sends nothing has the same effect on both sides. */
  lemma {:induction false} SilentAgrees(c: Crypto, a: Party, b: Party, t: Token)
    requires Agrees(c) && Matching(c, a, b) && t != E && t != S && Silent(c, a, t).Some?
    requires NeedsStatic(b.initiator, t) ==> b.rs.Some?
    ensures Silent(c, b, t).Some? && Matching(c, Silent(c, a, t).value, Silent(c, b, t).value)
    ensures Silent(c, b, t).value.rs == b.rs && Silent(c, b, t).value.initiator == b.initiator
  {
    hide MixKey;
    hide MixKeyAndHash;
    if t != Psk {
      SameSecret(c, a.s, b.s);
      if a.e.Some? { SameSecret(c, a.e.value, b.s); }
      if b.e.Some? { SameSecret(c, a.s, b.e.value); }
      if a.e.Some? && b.e.Some? { SameSecret(c, a.e.value, b.e.value); }
      assert Secret(c, b, t) == Secret(c, a, t);
    }
  }

  lemma {:induction false} SameSecret(c: Crypto, x: Bytes, y: Bytes)
    requires Agrees(c)
    ensures c.dh(x, c.pub(y)) == c.dh(y, c.pub(x))
  {
  }

  /** What was encrypted at one point of a handshake is decrypted at the same point. */
  lemma {:induction false} TextAgrees(c: Crypto, sym: Sym, text: Bytes)
    requires Agrees(c)
    ensures var (next, t) := EncryptAndHash(c, sym, text); DecryptAndHash(c, sym, t) == Some((next, text))
  {
  }

  /** Whatever the pattern, what one party writes the other reads: the payload arrives and
      both end at the same point. */
  lemma {:induction false} MessageAgrees(c: Crypto, a: Party, b: Party, tokens: seq<Token>, eph: Bytes, payload: Bytes)
    requires Agrees(c) && Matching(c, a, b) && Ready(b.initiator, b.rs.Some?, tokens)
    requires Write(c, a, tokens, eph, payload).Some?
    ensures var (a', fields) := Write(c, a, tokens, eph, payload).value;
      Read(c, b, tokens, fields).Some? &&
      var (b', text) := Read(c, b, tokens, fields).value;
      Matching(c, a', b') && text == payload
    decreases |tokens|
  {
    hide Silent;
    hide MixPublic;
    hide EncryptAndHash;
    hide DecryptAndHash;
    hide Agrees;
    if tokens == [] {
      TextAgrees(c, a.sym, payload);
    } else {
      var rest := tokens[1..];
      match tokens[0]
      case E =>
        var pk := c.pub(eph);
        var sym := MixPublic(c, a.sym, pk);
        MessageAgrees(c, a.(e := Some(eph), sym := sym), b.(re := Some(pk), sym := sym), rest, eph, payload);
        FieldsAfter(c, a.(e := Some(eph), sym := sym), b.(re := Some(pk), sym := sym), rest, eph, payload, pk);
      case S =>
        var (sym, t) := EncryptAndHash(c, a.sym, c.pub(a.s));
        TextAgrees(c, a.sym, c.pub(a.s));
        MessageAgrees(c, a.(sym := sym), b.(rs := Some(c.pub(a.s)), sym := sym), rest, eph, payload);
        FieldsAfter(c, a.(sym := sym), b.(rs := Some(c.pub(a.s)), sym := sym), rest, eph, payload, t);
      case _ =>
        SilentAgrees(c, a, b, tokens[0]);
        MessageAgrees(c, Silent(c, a, tokens[0]).value, Silent(c, b, tokens[0]).value, rest, eph, payload);
    }
  }

  lemma {:induction false} FieldsAfter(c: Crypto, a: Party, b: Party, rest: seq<Token>, eph: Bytes, payload: Bytes,
                                       field: Bytes)
    requires Write(c, a, rest, eph, payload).Some?
    ensures var fields := Write(c, a, rest, eph, payload).value.1;
      ([field] + fields)[1..] == fields && Sent(field, Write(c, a, rest, eph, payload))
        == Some((Write(c, a, rest, eph, payload).value.0, [field] + fields))
  {
  }

  // ---------- IKpsk2

  const NAME: string := "Noise_IKpsk2_25519_ChaChaPoly_BLAKE2s"
  const PROLOGUE: string := "WireGuard v1 zx2c4 Jason@zx2c4.com"

  function Ascii(s: string): Bytes {
    seq(|s|, i requires 0 <= i < |s| => (s[i] as int % 256) as u8)
  }

  /** Initialize, with the responder's static key as pre-message. */
  ghost function Initialize(c: Crypto, initiator: bool, s: Bytes, rs: Option<Bytes>, psk: Bytes,
                            responder: Bytes): Party {
    var ck := c.hash(Ascii(NAME));
    Party(initiator, s, None, rs, None, psk, Sym(ck, c.mix(c.mix(ck, Ascii(PROLOGUE)), responder), None, 0))
  }

  const FIRST: seq<Token> := [E, ES, S, SS]
  const SECOND: seq<Token> := [E, EE, SE, Psk]

  lemma {:induction false} FirstReady()
    ensures Ready(false, false, FIRST)
  {
    assert FIRST[1..] == [ES, S, SS] && [ES, S, SS][1..] == [S, SS] && [S, SS][1..] == [SS] && [SS][1..] == [];
    assert Ready(false, true, [SS]);
    assert Ready(false, false, [S, SS]);
    assert Ready(false, false, [ES, S, SS]);
  }

  lemma {:induction false} SecondReady()
    ensures Ready(true, true, SECOND)
  {
    assert SECOND[1..] == [EE, SE, Psk] && [EE, SE, Psk][1..] == [SE, Psk] && [SE, Psk][1..] == [Psk]
      && [Psk][1..] == [];
    assert Ready(true, true, [Psk]);
    assert Ready(true, true, [SE, Psk]);
    assert Ready(true, true, [EE, SE, Psk]);
  }
}
