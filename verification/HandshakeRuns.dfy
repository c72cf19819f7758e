/** Runs of the daemon's handshake workers: ConsumeMessageInitiation looks at the last timestamp of a
    peer under a read lock and overwrites it under a write lock taken later, so the check and the update
    are two steps, with those of other workers in between. */
module HandshakeRuns {
  import opened Options
  import opened NoiseCrypto
  import opened NoisePattern
  import opened GoHandshake

  type Worker = nat

  datatype Event =
    | Check(worker: Worker, msg: Initiation, now: int)
    | Update(worker: Worker, now: int)
    | Initiate(peer: Bytes, ephemeral: Option<Bytes>, draws: seq<nat>, time: Bytes)
    | Respond(peer: Bytes, ephemeral: Option<Bytes>, draws: seq<nat>)
    | Finish(reply: Response)
    | Session(peer: Bytes)

  /** Who sent an initiation, and its timestamp. */
  datatype Claim = Claim(peer: Bytes, time: Bytes)

  /** lastTimestamp and lastInitiationConsumption */
  datatype Stamp = Stamp(time: Bytes, at: int)

  datatype Output = Nothing | Refused | Claimed(claim: Claim) | Accepted(claim: Claim)

  /** The stamps of all peers, and the workers between check and update. */
  datatype Net = Net(last: map<Bytes, Stamp>, pending: map<Worker, Claim>)

  datatype Config = Config(crypto: Crypto, privateKey: Bytes)

  /** What the device makes of an initiation before it looks at the stamp of the peer. */
  ghost function Reads(c: Config, known: set<Bytes>, msg: Initiation): (r: Option<Claim>)
    ensures r.Some? ==> r.value.peer in known
  {
    var first := Initialize(c.crypto, false, c.privateKey, None, [], c.crypto.pub(c.privateKey));
    match FirstRead(c.crypto, first, msg.ephemeral, msg.identity, msg.timestamp)
    case None => None
    case Some((p, time)) =>
      if msg.kind == MESSAGE_INITIATION && p.rs.Some? && p.rs.value in known
         && !IsZero(c.crypto.dh(c.privateKey, p.rs.value)) then Some(Claim(p.rs.value, time))
      else None
  }

  predicate Newer(claim: Claim, s: Stamp, now: int) {
    After(claim.time, s.time) && now - s.at > HANDSHAKE_INITIATION_RATE
  }

  /** One event. A worker that is between check and update checks nothing else. */
  ghost function Step(c: Config, s: Net, e: Event): (Net, Output) {
    match e
    case Check(w, msg, now) =>
      if w in s.pending then (s, Nothing)
      else
        var r := Reads(c, s.last.Keys, msg);
        if r.Some? && Newer(r.value, s.last[r.value.peer], now) then
          (s.(pending := s.pending[w := r.value]), Claimed(r.value))
        else (s, Refused)
    case Update(w, now) =>
      if w !in s.pending then (s, Nothing)
      else
        var claim := s.pending[w];
        (Net(s.last[claim.peer := Stamp(claim.time, now)], s.pending - {w}), Accepted(claim))
    case _ => (s, Nothing)
  }

  /** The state after the events, from stamps that are any. */
  ghost function Reached(c: Config, last: map<Bytes, Stamp>, events: seq<Event>): Net {
    if events == [] then Net(last, map[])
    else Step(c, Reached(c, last, events[..|events| - 1]), events[|events| - 1]).0
  }

  ghost function Result(c: Config, last: map<Bytes, Stamp>, events: seq<Event>, n: nat): Output
    requires n < |events|
  {
    Step(c, Reached(c, last, events[..n]), events[n]).1
  }

  lemma {:induction false} ReachedNext(c: Config, last: map<Bytes, Stamp>, events: seq<Event>, n: nat)
    requires n < |events|
    ensures Reached(c, last, events[..n + 1]) == Step(c, Reached(c, last, events[..n]), events[n]).0
  {
    assert events[..n + 1][..n] == events[..n];
  }

  lemma {:induction false} ReachedNone(c: Config, last: map<Bytes, Stamp>, events: seq<Event>)
    ensures Reached(c, last, events[..0]) == Net(last, map[])
  {
  }

  // ---------- timestamps are ordered

  lemma {:induction false} NotAfterSelf(a: Bytes)
    ensures !After(a, a)
  {
    if a != [] {
      NotAfterSelf(a[1..]);
    }
  }

  lemma {:induction false} AfterTransitive(a: Bytes, b: Bytes, c: Bytes)
    requires After(a, b) && After(b, c)
    ensures After(a, c)
    decreases |a|
  {
    if c != [] && a[0] == b[0] == c[0] {
      AfterTransitive(a[1..], b[1..], c[1..]);
    }
  }

  // ---------- accepted initiations

  /** Event n accepts an initiation of the peer. */
  ghost predicate Takes(c: Config, last: map<Bytes, Stamp>, events: seq<Event>, n: nat, claim: Claim)
    requires n < |events|
  {
    Result(c, last, events, n) == Accepted(claim)
  }

  /** The timestamps accepted from any one peer strictly increase. */
  ghost predicate Increasing(c: Config, last: map<Bytes, Stamp>, events: seq<Event>) {
    forall m, n, x: Claim, y: Claim | 0 <= m < n < |events| && x.peer == y.peer ::
      Takes(c, last, events, m, x) && Takes(c, last, events, n, y) ==> After(y.time, x.time)
  }

  /** The worker has made its check at event i and has not updated up to event n. */
  ghost predicate Between(c: Config, last: map<Bytes, Stamp>, events: seq<Event>, i: nat, n: nat, w: Worker,
                          claim: Claim)
    requires n <= |events|
  {
    && i < n && events[i].Check? && events[i].worker == w && Result(c, last, events, i) == Claimed(claim)
    && forall l | i < l <= n ::
         w in Reached(c, last, events[..l]).pending && Reached(c, last, events[..l]).pending[w] == claim
  }

  /** Between the check and the update of event n another worker accepts an initiation of the same peer that is
      not older. */
  ghost predicate Overtaken(c: Config, last: map<Bytes, Stamp>, events: seq<Event>, n: nat, y: Claim)
    requires n < |events|
  {
    && events[n].Update? && Takes(c, last, events, n, y)
    && exists i, m, x | 0 <= i < m < n ::
         Between(c, last, events, i, n, events[n].worker, y) && Takes(c, last, events, m, x)
         && events[m].Update? && events[m].worker != events[n].worker && x.peer == y.peer && !After(y.time, x.time)
  }

  ghost predicate NeverOvertaken(c: Config, last: map<Bytes, Stamp>, events: seq<Event>) {
    forall n, y | 0 <= n < |events| :: !Overtaken(c, last, events, n, y)
  }

  /** One event: who is between check and update, and how a stamp changes. */
  lemma {:induction false} StepIs(c: Config, s: Net, e: Event, w: Worker)
    ensures var t := Step(c, s, e).0;
      && (w in t.pending && w in s.pending ==> t.pending[w] == s.pending[w] && (e.Update? ==> e.worker != w))
      && (w in t.pending && w !in s.pending ==>
            && e.Check? && e.worker == w && Step(c, s, e).1 == Claimed(t.pending[w])
            && t.pending[w].peer in s.last && After(t.pending[w].time, s.last[t.pending[w].peer].time))
  {
    hide Reads;
    hide After;
  }

  lemma {:induction false} StepTakes(c: Config, s: Net, e: Event, x: Claim)
    ensures Step(c, s, e).1 == Accepted(x) ==>
      && e.Update? && e.worker in s.pending && s.pending[e.worker] == x
      && x.peer in Step(c, s, e).0.last && Step(c, s, e).0.last[x.peer].time == x.time
    ensures forall pk | pk in s.last :: pk in Step(c, s, e).0.last
    ensures forall pk | pk in s.last && (forall y: Claim | y.peer == pk :: Step(c, s, e).1 != Accepted(y)) ::
      Step(c, s, e).0.last[pk] == s.last[pk]
  {
    hide Reads;
    hide After;
    if e.Update? && e.worker in s.pending {
      var y := s.pending[e.worker];
      assert Step(c, s, e).1 == Accepted(y);
    }
  }

  /** A worker between check and update has made that check, for a timestamp newer than what it saw. */
  lemma {:induction false} CheckedAt(c: Config, last: map<Bytes, Stamp>, events: seq<Event>, n: nat, w: Worker)
    returns (i: nat)
    requires n <= |events| && w in Reached(c, last, events[..n]).pending
    ensures var y := Reached(c, last, events[..n]).pending[w];
      && Between(c, last, events, i, n, w, y) && y.peer in Reached(c, last, events[..i]).last
      && After(y.time, Reached(c, last, events[..i]).last[y.peer].time)
  {
    hide Step;
    hide Reached;
    hide After;
    ReachedNone(c, last, events);
    assert n > 0;
    ReachedNext(c, last, events, n - 1);
    var s, e := Reached(c, last, events[..n - 1]), events[n - 1];
    StepIs(c, s, e, w);
    if w in s.pending {
      i := CheckedAt(c, last, events, n - 1, w);
    } else {
      i := n - 1;
    }
  }

  // ---------- when they increase

  /** Whatever was accepted from a peer is no newer than its stamp. */
  ghost predicate Covers(c: Config, last: map<Bytes, Stamp>, events: seq<Event>, n: nat, m: nat, x: Claim)
    requires m < n <= |events|
  {
    Takes(c, last, events, m, x) ==>
      var now := Reached(c, last, events[..n]).last;
      x.peer in now && (now[x.peer].time == x.time || After(now[x.peer].time, x.time))
  }

  /** An update that is not overtaken is newer than all that was accepted from the peer before. */
  lemma {:induction false} NewerThanAll(c: Config, last: map<Bytes, Stamp>, events: seq<Event>, m: nat, n: nat,
                                        x: Claim, y: Claim)
    requires m < n < |events| && x.peer == y.peer && !Overtaken(c, last, events, n, y)
    requires Takes(c, last, events, m, x) && Takes(c, last, events, n, y)
    requires forall k | m < k < n :: Covers(c, last, events, k, m, x)
    ensures After(y.time, x.time)
  {
    hide Step;
    hide Reached;
    hide After;
    var s, e := Reached(c, last, events[..n]), events[n];
    StepTakes(c, s, e, y);
    var i := CheckedAt(c, last, events, n, e.worker);
    StepTakes(c, Reached(c, last, events[..m]), events[m], x);
    if m < i {
      assert Covers(c, last, events, i, m, x);
      var seen := Reached(c, last, events[..i]).last[x.peer].time;
      if seen != x.time {
        AfterTransitive(y.time, seen, x.time);
      }
    } else {
      OtherWorker(c, last, events, i, m, n, x, y);
    }
  }

  lemma {:induction false} OtherWorker(c: Config, last: map<Bytes, Stamp>, events: seq<Event>, i: nat, m: nat, n: nat,
                                       x: Claim, y: Claim)
    requires i <= m < n < |events| && events[n].Update? && Between(c, last, events, i, n, events[n].worker, y)
    requires Takes(c, last, events, m, x) && events[m].Update?
    ensures i < m && events[m].worker != events[n].worker
  {
    hide Step;
    hide Reached;
    hide After;
    ReachedNext(c, last, events, m);
    StepIs(c, Reached(c, last, events[..m]), events[m], events[n].worker);
  }

  /** Up to any point: accepted timestamps increase and the stamps cover them, if none is overtaken. */
  lemma {:induction false} CoversAll(c: Config, last: map<Bytes, Stamp>, events: seq<Event>, n: nat, m: nat, x: Claim)
    requires m < n <= |events| && NeverOvertaken(c, last, events)
    ensures Covers(c, last, events, n, m, x)
    decreases n
  {
    hide Step;
    hide Reached;
    hide After;
    if Takes(c, last, events, m, x) {
      ReachedNext(c, last, events, n - 1);
      var s, e := Reached(c, last, events[..n - 1]), events[n - 1];
      StepTakes(c, s, e, x);
      if m < n - 1 {
        forall k | m < k < n ensures Covers(c, last, events, k, m, x) {
          CoversAll(c, last, events, k, m, x);
        }
        assert Covers(c, last, events, n - 1, m, x);
        if y: Claim :| y.peer == x.peer && Step(c, s, e).1 == Accepted(y) {
          StepTakes(c, s, e, y);
          assert !Overtaken(c, last, events, n - 1, y);
          NewerThanAll(c, last, events, m, n - 1, x, y);
        }
      }
    }
  }

  lemma {:induction false} OvertakenBreaks(c: Config, last: map<Bytes, Stamp>, events: seq<Event>, n: nat, y: Claim)
    requires n < |events| && Overtaken(c, last, events, n, y)
    ensures !Increasing(c, last, events)
  {
    hide Takes;
    hide Between;
    hide After;
    var i, m, x :| 0 <= i < m < n && Between(c, last, events, i, n, events[n].worker, y)
      && Takes(c, last, events, m, x) && x.peer == y.peer && !After(y.time, x.time);
  }

  /** The timestamps accepted from a peer strictly increase along a run if and only if no update is overtaken. */
  lemma {:induction false} ExactlyIncreasing(c: Config, last: map<Bytes, Stamp>, events: seq<Event>)
    ensures Increasing(c, last, events) <==> NeverOvertaken(c, last, events)
  {
    hide Reached;
    hide Step;
    hide After;
    hide Takes;
    hide Between;
    if !NeverOvertaken(c, last, events) {
      var n, y :| 0 <= n < |events| && Overtaken(c, last, events, n, y);
      OvertakenBreaks(c, last, events, n, y);
    } else {
      forall m, n, x: Claim, y: Claim | 0 <= m < n < |events| && x.peer == y.peer
        && Takes(c, last, events, m, x) && Takes(c, last, events, n, y)
        ensures After(y.time, x.time)
      {
        forall k | m < k < n ensures Covers(c, last, events, k, m, x) {
          CoversAll(c, last, events, k, m, x);
        }
        NewerThanAll(c, last, events, m, n, x, y);
      }
    }
  }

  /** While no update is overtaken, no initiation is accepted twice. */
  lemma {:induction false} NoneTwice(c: Config, last: map<Bytes, Stamp>, events: seq<Event>, m: nat, n: nat, x: Claim)
    requires m < n < |events| && NeverOvertaken(c, last, events) && Takes(c, last, events, m, x)
    ensures !Takes(c, last, events, n, x)
  {
    hide Takes;
    hide After;
    ExactlyIncreasing(c, last, events);
    NotAfterSelf(x.time);
  }

  /** Every check is followed at once by the update of the same worker. */
  predicate Sequential(events: seq<Event>) {
    forall n | 0 <= n < |events| - 1 && events[n].Check? ::
      events[n + 1].Update? && events[n + 1].worker == events[n].worker
  }

  /** With one initiation after the other the timestamps of a peer strictly increase, so none is accepted twice. */
  lemma {:induction false} SequentialIncreasing(c: Config, last: map<Bytes, Stamp>, events: seq<Event>)
    requires Sequential(events)
    ensures Increasing(c, last, events)
    ensures forall m, n, x | 0 <= m < n < |events| && Takes(c, last, events, m, x) :: !Takes(c, last, events, n, x)
  {
    hide Reached;
    hide Step;
    hide Takes;
    hide Increasing;
    forall n, y | 0 <= n < |events| ensures !Overtaken(c, last, events, n, y) {
      if Overtaken(c, last, events, n, y) {
        var i, m, x :| 0 <= i < m < n && Between(c, last, events, i, n, events[n].worker, y)
          && Takes(c, last, events, m, x);
        ReachedNext(c, last, events, i + 1);
        StepIs(c, Reached(c, last, events[..i + 1]), events[i + 1], events[n].worker);
        assert false;
      }
    }
    ExactlyIncreasing(c, last, events);
    forall m, n, x | 0 <= m < n < |events| && Takes(c, last, events, m, x) ensures !Takes(c, last, events, n, x) {
      NoneTwice(c, last, events, m, n, x);
    }
  }

  // ---------- one initiation, two workers

  /** An initiation made with the device's public key by a peer it knows. */
  ghost function Honest(c: Crypto, s: Bytes, device: Bytes, e: Bytes, time: Bytes, sender: nat): (m: Initiation)
  {
    var w := Write(c, Initialize(c, true, s, Some(device), [], device), FIRST, e, time);
    if w.Some? && |w.value.1| == 3 then Initiation(MESSAGE_INITIATION, sender, w.value.1[0], w.value.1[1], w.value.1[2])
    else Initiation(0, 0, [], [], [])
  }

  /** Such an initiation is read as its sender's, with its timestamp. */
  lemma {:induction false} HonestReads(c: Config, s: Bytes, e: Bytes, time: Bytes, sender: nat, known: set<Bytes>)
    requires Agrees(c.crypto) && c.crypto.pub(s) in known && !IsZero(c.crypto.dh(c.privateKey, c.crypto.pub(s)))
    ensures Reads(c, known, Honest(c.crypto, s, c.crypto.pub(c.privateKey), e, time, sender))
         == Some(Claim(c.crypto.pub(s), time))
  {
    hide Write;
    hide Read;
    hide FirstRead;
    hide Agrees;
    hide IsZero;
    var crypto, device := c.crypto, c.crypto.pub(c.privateKey);
    var a := Initialize(crypto, true, s, Some(device), [], device);
    var b := Initialize(crypto, false, c.privateKey, None, [], device);
    FirstWritten(crypto, a, e, time);
    FirstReady();
    MessageAgrees(crypto, a, b, FIRST, e, time);
    var w := Write(crypto, a, FIRST, e, time).value.1;
    assert w == [w[0], w[1], w[2]];
    FirstReadIs(crypto, b, w[0], w[1], w[2]);
    LearntStatic(crypto, b, w[0], w[1], w[2]);
  }

  lemma {:induction false} LearntStatic(c: Crypto, p: Party, pk: Bytes, t: Bytes, u: Bytes)
    ensures FirstRead(c, p, pk, t, u).Some? ==> FirstRead(c, p, pk, t, u).value.0.rs.Some?
  {
    hide StaticRead;
    hide DecryptAndHash;
  }

  /** Any acceptable initiation is accepted twice, if two workers check it before one of them updates. */
  lemma {:induction false} RaceTakesTwice(c: Config, last: map<Bytes, Stamp>, msg: Initiation, now: int, x: Claim)
    requires Reads(c, last.Keys, msg) == Some(x) && Newer(x, last[x.peer], now)
    ensures var events := [Check(0, msg, now), Check(1, msg, now), Update(0, now), Update(1, now)];
      Takes(c, last, events, 2, x) && Takes(c, last, events, 3, x) && !Increasing(c, last, events)
  {
    hide Reads;
    hide Newer;
    var events := [Check(0, msg, now), Check(1, msg, now), Update(0, now), Update(1, now)];
    ReachedNone(c, last, events);
    ReachedNext(c, last, events, 0);
    ReachedNext(c, last, events, 1);
    ReachedNext(c, last, events, 2);
    hide Reached;
    assert Reached(c, last, events[..1]) == Net(last, map[0 := x]);
    assert Reached(c, last, events[..2]) == Net(last, map[0 := x, 1 := x]);
    assert Reached(c, last, events[..3]).pending == map[1 := x];
    NotAfterSelf(x.time);
    hide After;
    assert Takes(c, last, events, 2, x) && Takes(c, last, events, 3, x);
  }

  /** There are such initiations: with primitives that have every property, timestamps need not increase. */
  lemma {:induction false} MayRepeat()
    ensures exists c: Config, last, events ::
      Agrees(c.crypto) && Symbolic(c.crypto) && !Increasing(c, last, events)
  {
    hide Reads;
    hide Increasing;
    hide Agrees;
    hide Symbolic;
    hide Honest;
    PrimitivesExist();
    var crypto := PairCrypto();
    hide PairCrypto;
    var c, pk := Config(crypto, [1]), crypto.pub([2]);
    var last := map[pk := Stamp(NO_TIMESTAMP, 0)];
    var msg := Honest(crypto, [2], crypto.pub([1]), [3], [1], 7);
    HonestReads(c, [2], [3], [1], 7, last.Keys);
    RaceTakesTwice(c, last, msg, 100_000_000, Claim(pk, [1]));
  }

  // ---------- the device

  /** The stamps of the peers. */
  ghost function View(d: Device): map<Bytes, Stamp>
    reads d, set pk | pk in d.peers :: d.peers[pk].handshake
  {
    map pk | pk in d.peers ::
      Stamp(d.peers[pk].handshake.lastTimestamp, d.peers[pk].handshake.lastInitiationConsumption)
  }

  /** What a worker has in hand between check and update. */
  datatype Found = Found(peer: Peer, msg: Initiation, hash: Bytes, chainKey: Bytes, timestamp: Bytes)

  ghost predicate Carries(peers: map<Bytes, Peer>, found: map<Worker, Found>, pending: map<Worker, Claim>) {
    && found.Keys == pending.Keys
    && forall w | w in found ::
         var pk := found[w].peer.handshake.remoteStatic;
         pk in peers && peers[pk] == found[w].peer && pending[w] == Claim(pk, found[w].timestamp)
  }

  /** The handshakes the index table leads to. */
  ghost predicate Within(d: Device, all: set<Handshake>)
    reads d
  {
    && (forall pk | pk in d.peers :: d.peers[pk].handshake in all)
    && forall i | i in d.table && d.table[i].handshake != null :: d.table[i].handshake in all
  }

  ghost predicate Follows(d: Device, found: map<Worker, Found>, s: Net, all: set<Handshake>)
    reads d, set pk | pk in d.peers :: d.peers[pk].handshake
  {
    Filed(d) && Paired(d) && Within(d, all) && View(d) == s.last && Carries(d.peers, found, s.pending)
  }

  /** The first half of ConsumeMessageInitiation, in terms of the stamps. */
  lemma {:induction false} AcceptableIs(d: Device, msg: Initiation, now: int)
    requires Filed(d)
    ensures var r := Reads(Config(d.crypto, d.privateKey), d.peers.Keys, msg);
      && (Acceptable(d, msg, now) <==> r.Some? && Newer(r.value, View(d)[r.value.peer], now))
      && (Acceptable(d, msg, now) ==> Opened(d, msg).Some? && Opened(d, msg).value.0.rs == Some(r.value.peer)
                                      && Opened(d, msg).value.1 == r.value.time)
  {
    hide FirstRead;
    hide After;
    hide IsZero;
  }

  method ApplyCheck(d: Device, found: map<Worker, Found>, e: Event, ghost s: Net, ghost all: set<Handshake>)
    returns (found': map<Worker, Found>, r: Output)
    requires Follows(d, found, s, all) && e.Check?
    ensures Follows(d, found', Step(Config(d.crypto, d.privateKey), s, e).0, all)
    ensures r == Step(Config(d.crypto, d.privateKey), s, e).1
  {
    hide Reads;
    hide Newer;
    hide Acceptable;
    hide Opened;
    hide Paired;
    found' := found;
    if e.worker in found {
      return found, Nothing;
    }
    AcceptableIs(d, e.msg, e.now);
    assert View(d).Keys == d.peers.Keys;
    var peer, hash, chainKey, timestamp := CheckInitiation(d, e.msg, e.now);
    if peer == null {
      return found, Refused;
    }
    found' := found[e.worker := Found(peer, e.msg, hash, chainKey, timestamp)];
    r := Claimed(Claim(peer.handshake.remoteStatic, timestamp));
  }

  method ApplyUpdate(d: Device, found: map<Worker, Found>, e: Event, ghost s: Net, ghost all: set<Handshake>)
    returns (found': map<Worker, Found>, r: Output)
    requires Follows(d, found, s, all) && e.Update?
    modifies set pk | pk in d.peers :: d.peers[pk].handshake
    ensures Follows(d, found', Step(Config(d.crypto, d.privateKey), s, e).0, all)
    ensures r == Step(Config(d.crypto, d.privateKey), s, e).1
  {
    hide Reads;
    if e.worker !in found {
      return found, Nothing;
    }
    var f := found[e.worker];
    UpdateHandshake(f.peer.handshake, f.msg, f.hash, f.chainKey, f.timestamp, e.now);
    found' := found - {e.worker};
    r := Accepted(Claim(f.peer.handshake.remoteStatic, f.timestamp));
    assert View(d) == old(View(d))[f.peer.handshake.remoteStatic := Stamp(f.timestamp, e.now)];
  }

  /** What the other functions keep. */
  twostate predicate Kept(d: Device, all: set<Handshake>)
    reads d, set pk | pk in d.peers :: d.peers[pk].handshake
  {
    Filed(d) && Paired(d) && Within(d, all) && d.peers == old(d.peers) && View(d) == old(View(d))
  }

  method ApplyInitiate(d: Device, e: Event, ghost all: set<Handshake>)
    requires Filed(d) && Paired(d) && Within(d, all) && e.Initiate? && e.peer in d.peers
    modifies d`table, set pk | pk in d.peers :: d.peers[pk], all
    ensures Kept(d, all)
  {
    hide Write;
    hide Read;
    hide IsZero;
    var m := CreateMessageInitiation(d, d.peers[e.peer], e.ephemeral, e.draws, e.time);
  }

  method ApplyRespond(d: Device, e: Event, ghost all: set<Handshake>)
    requires Filed(d) && Paired(d) && Within(d, all) && e.Respond? && e.peer in d.peers
    modifies d`table, set pk | pk in d.peers :: d.peers[pk], all
    ensures Kept(d, all)
  {
    hide Write;
    hide Read;
    hide IsZero;
    var m := CreateMessageResponse(d, d.peers[e.peer], e.ephemeral, e.draws);
  }

  method ApplyFinish(d: Device, e: Event, ghost all: set<Handshake>)
    requires Filed(d) && Paired(d) && Within(d, all) && e.Finish?
    modifies d`table, set pk | pk in d.peers :: d.peers[pk], all
    ensures Kept(d, all)
  {
    hide Write;
    hide Read;
    hide IsZero;
    var peer := ConsumeMessageResponse(d, e.reply);
  }

  method ApplySession(d: Device, e: Event, ghost all: set<Handshake>)
    requires Filed(d) && Paired(d) && Within(d, all) && e.Session? && e.peer in d.peers
    modifies d`table, set pk | pk in d.peers :: d.peers[pk], all
    ensures Kept(d, all)
  {
    hide SendKey;
    var k := BeginSymmetricSession(d, d.peers[e.peer]);
  }

  method ApplyOther(d: Device, e: Event, ghost all: set<Handshake>)
    requires Filed(d) && Paired(d) && Within(d, all) && !e.Check? && !e.Update?
    modifies d`table, set pk | pk in d.peers :: d.peers[pk], all
    ensures Kept(d, all)
  {
    hide Filed;
    hide Paired;
    hide Within;
    hide View;
    match e
    case Initiate(pk, _, _, _) => if pk in d.peers { ApplyInitiate(d, e, all); }
    case Respond(pk, _, _) => if pk in d.peers { ApplyRespond(d, e, all); }
    case Finish(_) => ApplyFinish(d, e, all);
    case Session(pk) => if pk in d.peers { ApplySession(d, e, all); }
  }

  lemma {:induction false} NoneCarried(peers: map<Bytes, Peer>)
    ensures Carries(peers, map[], map[])
  {
  }

  lemma {:induction false} OtherStep(c: Config, s: Net, e: Event)
    requires !e.Check? && !e.Update?
    ensures Step(c, s, e) == (s, Nothing)
  {
  }

  /** The device follows the machine through every run: what is refused and accepted, and the stamps, are
      those of the machine, whatever else is sent and received in between. */
  method Run(d: Device, events: seq<Event>) returns (results: seq<Output>)
    requires Filed(d) && Paired(d)
    modifies d`table, set pk | pk in d.peers :: d.peers[pk], set pk | pk in d.peers :: d.peers[pk].handshake,
             set i | i in d.table && d.table[i].handshake != null :: d.table[i].handshake
    ensures |results| == |events|
    ensures forall n | 0 <= n < |events| ::
      results[n] == Result(Config(d.crypto, d.privateKey), old(View(d)), events, n)
    ensures View(d) == Reached(Config(d.crypto, d.privateKey), old(View(d)), events).last
  {
    hide Step;
    hide Reached;
    hide Filed;
    hide Paired;
    hide Carries;
    ghost var c, last := Config(d.crypto, d.privateKey), View(d);
    ghost var all: set<Handshake> := (set pk | pk in d.peers :: d.peers[pk].handshake)
      + (set i | i in d.table && d.table[i].handshake != null :: d.table[i].handshake);
    var found: map<Worker, Found> := map[];
    results := [];
    ReachedNone(c, last, events);
    NoneCarried(d.peers);
    for n := 0 to |events|
      invariant d.peers == old(d.peers) && |results| == n && Follows(d, found, Reached(c, last, events[..n]), all)
      invariant forall i | 0 <= i < n :: results[i] == Result(c, last, events, i)
    {
      ReachedNext(c, last, events, n);
      ghost var s := Reached(c, last, events[..n]);
      var r := Nothing;
      if events[n].Check? {
        found, r := ApplyCheck(d, found, events[n], s, all);
      } else if events[n].Update? {
        found, r := ApplyUpdate(d, found, events[n], s, all);
      } else {
        OtherStep(c, s, events[n]);
        ApplyOther(d, events[n], all);
      }
      results := results + [r];
    }
    assert events[..|events|] == events;
  }
}
