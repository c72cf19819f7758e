/** The packet pipeline of wireguard_kernel/src/queueing.h, send.c and receive.c: every
    packet sits in the ring of its peer and, until it is encrypted or decrypted, in the
    ring of the device or with a worker. Producers, workers and the one consumer of
    each peer interleave in any order; every event is one step of one of them. */
module Pipeline {
  import opened Options

  type Packet = nat
  type PeerId = nat
  type Thread = nat
  type Cpu = nat

  datatype State = Uncrypted | Crypted | Dead

  /** What a producer or worker is about to do. */
  datatype Role =
    | ToPeer(packet: Packet)    // state set, about to enter the peer's ring
    | ToDevice(packet: Packet)  // in the peer's ring, about to enter the device's
    | Refused(packet: Packet)   // the device's ring was full: about to be marked dead
    | Kicking(cpu: Cpu)         // in the device's ring, about to schedule a worker
    | Looping                   // a worker, about to take from the device's ring
    | Crypting(packet: Packet)  // taken from the device's ring by a worker
    | Waking(peer: PeerId, worker: bool)  // state released, about to schedule the consumer

  /** The consumer of a peer: about to look at the head, or about to take it. */
  datatype Consumer = Peeking | Found(packet: Packet)

  /** Where a packet is: new with a producer, in the device's ring, in the hands of a thread,
      finished and waiting in its peer's ring, or gone. */
  datatype Place = New(who: Thread) | InDevice | With(who: Thread) | Waiting | Gone

  /** What never changes. The consumer of a transmit queue is a work item; that of a receive
      queue is polled with a budget. */
  datatype Config = Config(transmit: bool, capacity: nat, peers: set<PeerId>)

  /** The shared state. queued are the processors whose work item for the device's ring is scheduled,
      pending the peers whose consumer is; place, entered and left only record what happened. */
  datatype Sys = Sys(
    owner: map<Packet, PeerId>, state: map<Packet, State>,
    ring: map<PeerId, seq<Packet>>, device: seq<Packet>,
    threads: map<Thread, Role>, queued: set<Cpu>, pending: set<PeerId>, running: map<PeerId, Consumer>,
    place: map<Packet, Place>, entered: map<PeerId, seq<Packet>>, left: map<PeerId, seq<Packet>>)

  function Init(c: Config): Sys {
    Sys(map[], map[], map q | q in c.peers :: [], [], map[], {}, {}, map[], map[],
        map q | q in c.peers :: [], map q | q in c.peers :: [])
  }

  // ---------- steps

  datatype Event =
    | Produce(thread: Thread, packet: Packet, peer: PeerId)
    | EnterPeer(thread: Thread) | EnterDevice(thread: Thread, cpu: Cpu) | MarkDead(thread: Thread)
    | Kick(thread: Thread) | StartWorker(thread: Thread, cpu: Cpu) | Consume(thread: Thread)
    | Finish(thread: Thread, ok: bool) | Wake(thread: Thread)
    | Start(peer: PeerId) | Peek(peer: PeerId) | Discard(peer: PeerId) | Pause(peer: PeerId)

  /** A producer sets the state of a new packet. */
  function DoProduce(s: Sys, t: Thread, p: Packet, q: PeerId): Sys {
    if t in s.threads || p in s.owner || q !in s.ring then s
    else s.(owner := s.owner[p := q], state := s.state[p := Uncrypted], threads := s.threads[t := ToPeer(p)],
            place := s.place[p := New(t)])
  }

  /** ptr_ring_produce on the peer's ring; a full ring means -ENOSPC and the packet is freed. */
  function DoEnterPeer(c: Config, s: Sys, t: Thread): Sys {
    if t !in s.threads || !s.threads[t].ToPeer? || s.threads[t].packet !in s.owner
      || s.owner[s.threads[t].packet] !in s.ring
       || s.owner[s.threads[t].packet] !in s.entered then s
    else
      var p := s.threads[t].packet;
      var q := s.owner[p];
      if |s.ring[q]| >= c.capacity then s.(threads := s.threads - {t}, place := s.place[p := Gone],
                                           state := s.state[p := Dead])
      else s.(ring := s.ring[q := s.ring[q] + [p]], entered := s.entered[q := s.entered[q] + [p]],
              threads := s.threads[t := ToDevice(p)], place := s.place[p := With(t)])
  }

  /** ptr_ring_produce on the device's ring; a full ring means -EPIPE. */
  function DoEnterDevice(c: Config, s: Sys, t: Thread, cpu: Cpu): Sys {
    if t !in s.threads || !s.threads[t].ToDevice? then s
    else
      var p := s.threads[t].packet;
      if |s.device| >= c.capacity then s.(threads := s.threads[t := Refused(p)])
      else s.(device := s.device + [p], threads := s.threads[t := Kicking(cpu)], place := s.place[p := InDevice])
  }

  /** The end of a packet's processing: the state is released, and the thread goes on to wake the
      consumer of the packet's peer. */
  function Release(s: Sys, t: Thread, p: Packet, st: State): Sys {
    if p !in s.owner then s
    else
      var worker := t in s.threads && s.threads[t].Crypting?;
      s.(state := s.state[p := st], place := s.place[p := Waiting],
         threads := s.threads[t := Waking(s.owner[p], worker)])
  }

  /** wg_queue_enqueue_per_peer with PACKET_STATE_DEAD after -EPIPE. */
  function DoMarkDead(s: Sys, t: Thread): Sys {
    if t !in s.threads || !s.threads[t].Refused? then s else Release(s, t, s.threads[t].packet, Dead)
  }

  /** queue_work_on for the worker of a processor. */
  function DoKick(s: Sys, t: Thread): Sys {
    if t !in s.threads || !s.threads[t].Kicking? then s
    else s.(threads := s.threads - {t}, queued := s.queued + {s.threads[t].cpu})
  }

  /** A scheduled worker starts. */
  function DoStartWorker(s: Sys, t: Thread, cpu: Cpu): Sys {
    if t in s.threads || cpu !in s.queued then s else s.(queued := s.queued - {cpu}, threads := s.threads[t := Looping])
  }

  /** A worker takes the oldest packet of the device's ring, or ends if there is none. */
  function DoConsume(s: Sys, t: Thread): Sys {
    if t !in s.threads || !s.threads[t].Looping? then s
    else if s.device == [] then s.(threads := s.threads - {t})
    else s.(device := s.device[1..], threads := s.threads[t := Crypting(s.device[0])],
            place := s.place[s.device[0] := With(t)])
  }

  /** A worker is done with its packet, successfully or not. */
  function DoFinish(s: Sys, t: Thread, ok: bool): Sys {
    if t !in s.threads || !s.threads[t].Crypting? then s
    else Release(s, t, s.threads[t].packet, if ok then Crypted else Dead)
  }

  /** queue_work or napi_schedule; a worker goes on with its loop. */
  function DoWake(s: Sys, t: Thread): Sys {
    if t !in s.threads || !s.threads[t].Waking? then s
    else s.(threads := if s.threads[t].worker then s.threads[t := Looping] else s.threads - {t},
            pending := s.pending + {s.threads[t].peer})
  }

  /** A scheduled consumer starts; it never runs twice at once. */
  function DoStart(s: Sys, q: PeerId): Sys {
    if q !in s.pending || q in s.running then s else s.(pending := s.pending - {q}, running := s.running[q := Peeking])
  }

  /** The loop condition: an empty ring or an unfinished head ends the run. */
  function DoPeek(s: Sys, q: PeerId): Sys {
    if q !in s.running || !s.running[q].Peeking? || q !in s.ring then s
    else if s.ring[q] == [] || s.ring[q][0] !in s.state
      || s.state[s.ring[q][0]] == Uncrypted then s.(running := s.running - {q})
    else s.(running := s.running[q := Found(s.ring[q][0])])
  }

  /** The head leaves the ring and is sent or freed. */
  function DoDiscard(s: Sys, q: PeerId): Sys {
    if q !in s.running || !s.running[q].Found? || q !in s.ring || s.ring[q] == [] || q !in s.left then s
    else
      var p := s.ring[q][0];
      s.(ring := s.ring[q := s.ring[q][1..]], left := s.left[q := s.left[q] + [p]], place := s.place[p := Gone],
         running := s.running[q := Peeking])
  }

  /** A polled consumer may stop when its budget is used up. */
  function DoPause(c: Config, s: Sys, q: PeerId): Sys {
    if c.transmit || q !in s.running || !s.running[q].Peeking? then s
      else s.(running := s.running - {q}, pending := s.pending + {q})
  }

  function Step(c: Config, s: Sys, e: Event): Sys {
    match e
    case Produce(t, p, q) => DoProduce(s, t, p, q)
    case EnterPeer(t) => DoEnterPeer(c, s, t)
    case EnterDevice(t, cpu) => DoEnterDevice(c, s, t, cpu)
    case MarkDead(t) => DoMarkDead(s, t)
    case Kick(t) => DoKick(s, t)
    case StartWorker(t, cpu) => DoStartWorker(s, t, cpu)
    case Consume(t) => DoConsume(s, t)
    case Finish(t, ok) => DoFinish(s, t, ok)
    case Wake(t) => DoWake(s, t)
    case Start(q) => DoStart(s, q)
    case Peek(q) => DoPeek(s, q)
    case Discard(q) => DoDiscard(s, q)
    case Pause(q) => DoPause(c, s, q)
  }

  function Run(c: Config, events: seq<Event>): Sys {
    if events == [] then Init(c) else Step(c, Run(c, events[..|events| - 1]), events[|events| - 1])
  }

  // ---------- invariants

  ghost predicate NoRepeats(s: seq<Packet>) {
    forall i, j | 0 <= i < j < |s| :: s[i] != s[j]
  }

  predicate InRing(x: Place) {
    x.InDevice? || x.With? || x.Waiting?
  }

  predicate Unfinished(x: Place) {
    x.New? || x.InDevice? || x.With?
  }

  type Owner = map<Packet, PeerId>
  type States = map<Packet, State>
  type Rings = map<PeerId, seq<Packet>>
  type Places = map<Packet, Place>
  type Roles = map<Thread, Role>
  type Consumers = map<PeerId, Consumer>

  /** Every packet is where its place says: in its peer's ring or not, finished or not. */
  ghost predicate Placed(owner: Owner, state: States, place: Places, ring: Rings) {
    && owner.Keys == state.Keys == place.Keys
    && (forall p | p in owner ::
          && owner[p] in ring
          && (p in ring[owner[p]] <==> InRing(place[p]))
          && (state[p] == Uncrypted <==> Unfinished(place[p])))
    && (forall q, p | q in ring && p in ring[q] :: p in owner && owner[p] == q)
  }

  /** First in, first out: what left, then what is in the ring, is what entered; nothing twice. */
  ghost predicate Ordered(ring: Rings, entered: Rings, left: Rings, place: Places) {
    && ring.Keys == entered.Keys == left.Keys
    && (forall q | q in ring :: entered[q] == left[q] + ring[q] && NoRepeats(entered[q]))
    && (forall q, p | q in entered && p in entered[q] :: p in place && !place[p].New?)
  }

  /** A packet that is not finished has exactly one holder. */
  ghost predicate Held(device: seq<Packet>, place: Places, threads: Roles) {
    && NoRepeats(device)
    && (forall p | p in device :: p in place && place[p] == InDevice)
    && (forall p | p in place && place[p].InDevice? :: p in device)
    && (forall p | p in place && place[p].With? :: place[p].who in threads && Works(threads[place[p].who]) == Some(p))
    && (forall p | p in place && place[p].New? :: place[p].who in threads && threads[place[p].who] == ToPeer(p))
    && (forall t | t in threads && Works(threads[t]).Some? ::
          Works(threads[t]).value in place && place[Works(threads[t]).value] == With(t))
    && (forall t | t in threads && threads[t].ToPeer? ::
          threads[t].packet in place && place[threads[t].packet] == New(t))
  }

  /** The packet a thread works on, once it is in a ring. */
  function Works(r: Role): Option<Packet> {
    match r
    case ToDevice(p) => Some(p)
    case Refused(p) => Some(p)
    case Crypting(p) => Some(p)
    case _ => None
  }

  predicate HeadDone(ring: Rings, state: States, q: PeerId) {
    q in ring && ring[q] != [] && ring[q][0] in state && state[ring[q][0]] != Uncrypted
  }

  /** A consumer that has found a packet finds it still at the head, finished. */
  ghost predicate Consuming(running: Consumers, ring: Rings, state: States) {
    forall q | q in running && running[q].Found? :: HeadDone(ring, state, q) && ring[q][0] == running[q].packet
  }

  ghost predicate AboutToWake(threads: Roles, q: PeerId) {
    exists t | t in threads :: Wakes(threads[t], q)
  }

  predicate Wakes(r: Role, q: PeerId) {
    r.Waking? && r.peer == q
  }

  /** A worker in its loop, or a producer about to schedule one. */
  predicate Serves(r: Role) {
    r.Kicking? || r.Looping? || r.Crypting? || (r.Waking? && r.worker)
  }

  /** A packet in the device's ring is never stranded: a worker is scheduled, running or about to be. */
  ghost predicate Served(device: seq<Packet>, queued: set<Cpu>, threads: Roles) {
    device != [] && queued == {} ==> exists t | t in threads :: Serves(threads[t])
  }

  /** A finished head is never stranded: its consumer is scheduled, running or about to be scheduled. */
  ghost predicate Awake(ring: Rings, state: States, pending: set<PeerId>, running: Consumers, threads: Roles) {
    forall q | HeadDone(ring, state, q) :: q in pending || q in running || AboutToWake(threads, q)
  }

  ghost predicate Inv(c: Config, s: Sys) {
    && s.ring.Keys == c.peers
    && Placed(s.owner, s.state, s.place, s.ring)
    && Ordered(s.ring, s.entered, s.left, s.place)
    && Held(s.device, s.place, s.threads)
    && Consuming(s.running, s.ring, s.state)
    && Served(s.device, s.queued, s.threads)
    && (c.transmit ==> Awake(s.ring, s.state, s.pending, s.running, s.threads))
  }

  lemma {:induction false} InitInv(c: Config)
    ensures Inv(c, Init(c))
  {
  }

  // ---------- threads that go on waking

  lemma {:induction false} WakingStays(threads: Roles, t: Thread, r: Role, q: PeerId)
    requires AboutToWake(threads, q) && (t in threads ==> !threads[t].Waking?)
    ensures AboutToWake(threads[t := r], q) && AboutToWake(threads - {t}, q)
  {
    var u :| u in threads && Wakes(threads[u], q);
    assert u in threads[t := r] && Wakes(threads[t := r][u], q);
    assert u in threads - {t} && Wakes((threads - {t})[u], q);
  }

  /** A change of role that leaves the workers alone. */
  lemma {:induction false} ServedRole(device: seq<Packet>, queued: set<Cpu>, threads: Roles, t: Thread, r: Role)
    requires Served(device, queued, threads) && (t in threads && Serves(threads[t]) ==> Serves(r))
    ensures Served(device, queued, threads[t := r])
    ensures t in threads && !Serves(threads[t]) ==> Served(device, queued, threads - {t})
  {
    if device != [] && queued == {} {
      var u :| u in threads && Serves(threads[u]);
      assert u in threads[t := r] && Serves(threads[t := r][u]);
      if t in threads && !Serves(threads[t]) {
        assert u in threads - {t} && Serves((threads - {t})[u]);
      }
    }
  }

  /** With a thread that serves, anything may enter the ring. */
  lemma {:induction false} ServedBy(device: seq<Packet>, queued: set<Cpu>, threads: Roles, t: Thread)
    requires t in threads && Serves(threads[t])
    ensures Served(device, queued, threads)
  {
  }

  /** A change of role that leaves heads, consumers and wake-ups alone. */
  lemma {:induction false} AwakeRole(ring: Rings, state: States, pending: set<PeerId>, running: Consumers,
                                     threads: Roles, t: Thread, r: Role)
    requires Awake(ring, state, pending, running, threads) && (t in threads ==> !threads[t].Waking?)
    ensures Awake(ring, state, pending, running, threads[t := r]) && Awake(ring, state, pending, running, threads - {t})
  {
    forall q | AboutToWake(threads, q) ensures AboutToWake(threads[t := r], q) && AboutToWake(threads - {t}, q) {
      WakingStays(threads, t, r, q);
    }
  }

  // ---------- produce

  lemma {:induction false} ProduceKeeps(c: Config, s: Sys, t: Thread, p: Packet, q: PeerId)
    requires Inv(c, s) && t !in s.threads && p !in s.owner && q in s.ring
    ensures Inv(c, DoProduce(s, t, p, q))
  {
    PlacedNew(s.owner, s.state, s.place, s.ring, p, q, t);
    OrderedNew(s.ring, s.entered, s.left, s.place, p, t);
    HeldNew(s.device, s.place, s.threads, p, t);
    NotInRing(s.owner, s.state, s.place, s.ring, p);
    HeadsSame(s.ring, s.state, p, Uncrypted);
    ConsumingSame(s.running, s.ring, s.state, s.state[p := Uncrypted]);
    ServedRole(s.device, s.queued, s.threads, t, ToPeer(p));
    hide Served;
    if c.transmit {
      AwakeSame(s.ring, s.state, s.state[p := Uncrypted], s.pending, s.running, s.threads);
      AwakeRole(s.ring, s.state[p := Uncrypted], s.pending, s.running, s.threads, t, ToPeer(p));
    }
  }

  lemma {:induction false} PlacedNew(owner: Owner, state: States, place: Places, ring: Rings, p: Packet, q: PeerId,
                                     t: Thread)
    requires Placed(owner, state, place, ring) && p !in owner && q in ring
    ensures Placed(owner[p := q], state[p := Uncrypted], place[p := New(t)], ring)
  {
  }

  lemma {:induction false} OrderedNew(ring: Rings, entered: Rings, left: Rings, place: Places, p: Packet, t: Thread)
    requires Ordered(ring, entered, left, place) && p !in place
    ensures Ordered(ring, entered, left, place[p := New(t)])
  {
  }

  lemma {:induction false} HeldNew(device: seq<Packet>, place: Places, threads: Roles, p: Packet, t: Thread)
    requires Held(device, place, threads) && p !in place && t !in threads
    ensures Held(device, place[p := New(t)], threads[t := ToPeer(p)])
  {
  }

  lemma {:induction false} NotInRing(owner: Owner, state: States, place: Places, ring: Rings, p: Packet)
    requires Placed(owner, state, place, ring) && (p in place ==> !InRing(place[p]))
    ensures forall q | q in ring :: p !in ring[q]
  {
  }

  /** The state of a packet in no ring matters to no head. */
  lemma {:induction false} HeadsSame(ring: Rings, state: States, p: Packet, st: State)
    requires forall q | q in ring :: p !in ring[q]
    ensures forall q :: HeadDone(ring, state[p := st], q) <==> HeadDone(ring, state, q)
  {
  }

  lemma {:induction false} ConsumingSame(running: Consumers, ring: Rings, state: States, state': States)
    requires Consuming(running, ring, state) && forall q :: HeadDone(ring, state', q) <==> HeadDone(ring, state, q)
    ensures Consuming(running, ring, state')
  {
  }

  lemma {:induction false} AwakeSame(ring: Rings, state: States, state': States, pending: set<PeerId>,
                                     running: Consumers, threads: Roles)
    requires Awake(ring, state, pending, running, threads)
    requires forall q :: HeadDone(ring, state', q) <==> HeadDone(ring, state, q)
    ensures Awake(ring, state', pending, running, threads)
  {
    hide AboutToWake;
    hide HeadDone;
  }

  // ---------- enter the peer's ring

  lemma {:induction false} EnterPeerKeeps(c: Config, s: Sys, t: Thread, p: Packet, q: PeerId)
    requires Inv(c, s) && t in s.threads && s.threads[t] == ToPeer(p) && p in s.owner && q == s.owner[p]
    ensures Inv(c, DoEnterPeer(c, s, t))
  {
    hide Placed;
    hide Ordered;
    hide Held;
    hide Consuming;
    hide Awake;
    hide Served;
    NewIs(c, s, t, p);
    ServedRole(s.device, s.queued, s.threads, t, ToDevice(p));
    if q !in s.ring || q !in s.entered {
    } else if |s.ring[q]| >= c.capacity {
      PlacedGone(s.owner, s.state, s.place, s.ring, p);
      OrderedMove(s.ring, s.entered, s.left, s.place, p, Gone);
      HeldGone(s.device, s.place, s.threads, p, t);
      NotInRing(s.owner, s.state, s.place, s.ring, p);
      HeadsSame(s.ring, s.state, p, Dead);
      ConsumingSame(s.running, s.ring, s.state, s.state[p := Dead]);
      if c.transmit {
        AwakeSame(s.ring, s.state, s.state[p := Dead], s.pending, s.running, s.threads);
        AwakeRole(s.ring, s.state[p := Dead], s.pending, s.running, s.threads, t, ToPeer(p));
      }
    } else {
      KeysStay(s.ring, q, s.ring[q] + [p]);
      PlacedEnter(s.owner, s.state, s.place, s.ring, p, t);
      OrderedEnter(s.ring, s.entered, s.left, s.place, p, q, t);
      HeldEnter(s.device, s.place, s.threads, p, t);
      HeadsAppend(s.ring, s.state, q, p);
      if c.transmit {
        AwakeRings(s.ring, s.ring[q := s.ring[q] + [p]], s.state, s.pending, s.running, s.threads);
        AwakeRole(s.ring[q := s.ring[q] + [p]], s.state, s.pending, s.running, s.threads, t, ToDevice(p));
      }
      ConsumingAppend(s.running, s.ring, s.state, q, p);
    }
  }

  lemma {:induction false} NewIs(c: Config, s: Sys, t: Thread, p: Packet)
    requires Inv(c, s) && t in s.threads && s.threads[t] == ToPeer(p)
    ensures p in s.place && s.place[p] == New(t) && p in s.state && s.state[p] == Uncrypted
  {
  }

  lemma {:induction false} KeysStay(ring: Rings, q: PeerId, r: seq<Packet>)
    requires q in ring
    ensures ring[q := r].Keys == ring.Keys
  {
  }

  lemma {:induction false} PlacedGone(owner: Owner, state: States, place: Places, ring: Rings, p: Packet)
    requires Placed(owner, state, place, ring) && p in place && !InRing(place[p])
    ensures Placed(owner, state[p := Dead], place[p := Gone], ring)
  {
  }

  lemma {:induction false} OrderedMove(ring: Rings, entered: Rings, left: Rings, place: Places, p: Packet, x: Place)
    requires Ordered(ring, entered, left, place) && !x.New?
    ensures Ordered(ring, entered, left, place[p := x])
  {
  }

  lemma {:induction false} HeldGone(device: seq<Packet>, place: Places, threads: Roles, p: Packet, t: Thread)
    requires Held(device, place, threads) && t in threads && threads[t] == ToPeer(p)
    ensures Held(device, place[p := Gone], threads - {t})
  {
  }

  lemma {:induction false} PlacedEnter(owner: Owner, state: States, place: Places, ring: Rings, p: Packet, t: Thread)
    requires Placed(owner, state, place, ring) && p in place && place[p] == New(t)
    ensures owner[p] in ring && Placed(owner, state, place[p := With(t)], ring[owner[p] := ring[owner[p]] + [p]])
  {
  }

  lemma {:induction false} OrderedEnter(ring: Rings, entered: Rings, left: Rings, place: Places, p: Packet, q: PeerId,
                                        t: Thread)
    requires Ordered(ring, entered, left, place) && p in place && place[p].New? && q in ring
    ensures q in entered && Ordered(ring[q := ring[q] + [p]], entered[q := entered[q] + [p]], left, place[p := With(t)])
  {
    AppendUnique(entered[q], p);
    Assoc(left[q], ring[q], p);
  }

  lemma {:induction false} Assoc(a: seq<Packet>, b: seq<Packet>, p: Packet)
    ensures a + b + [p] == a + (b + [p])
  {
  }

  lemma {:induction false} AppendUnique(s: seq<Packet>, p: Packet)
    requires NoRepeats(s) && p !in s
    ensures NoRepeats(s + [p])
  {
  }

  lemma {:induction false} HeldEnter(device: seq<Packet>, place: Places, threads: Roles, p: Packet, t: Thread)
    requires Held(device, place, threads) && t in threads && threads[t] == ToPeer(p)
    ensures Held(device, place[p := With(t)], threads[t := ToDevice(p)])
  {
  }

  /** An unfinished packet at the end changes no finished head. */
  lemma {:induction false} HeadsAppend(ring: Rings, state: States, q: PeerId, p: Packet)
    requires q in ring && p in state && state[p] == Uncrypted
    ensures forall x :: HeadDone(ring[q := ring[q] + [p]], state, x) <==> HeadDone(ring, state, x)
  {
  }

  lemma {:induction false} AwakeRings(ring: Rings, ring': Rings, state: States, pending: set<PeerId>,
                                      running: Consumers, threads: Roles)
    requires Awake(ring, state, pending, running, threads)
    requires forall q :: HeadDone(ring', state, q) <==> HeadDone(ring, state, q)
    ensures Awake(ring', state, pending, running, threads)
  {
    hide AboutToWake;
    hide HeadDone;
  }

  lemma {:induction false} ConsumingAppend(running: Consumers, ring: Rings, state: States, q: PeerId, p: Packet)
    requires Consuming(running, ring, state) && q in ring
    ensures Consuming(running, ring[q := ring[q] + [p]], state)
  {
  }

  // ---------- the device's ring

  lemma {:induction false} EnterDeviceKeeps(c: Config, s: Sys, t: Thread, p: Packet, cpu: Cpu)
    requires Inv(c, s) && t in s.threads && s.threads[t] == ToDevice(p)
    ensures Inv(c, DoEnterDevice(c, s, t, cpu))
  {
    hide Placed;
    hide Ordered;
    hide Held;
    hide Consuming;
    hide Awake;
    hide Served;
    WithIs(c, s, t, p);
    if |s.device| >= c.capacity {
      if c.transmit { AwakeRole(s.ring, s.state, s.pending, s.running, s.threads, t, Refused(p)); }
      HeldRole(s.device, s.place, s.threads, p, t, Refused(p));
      ServedRole(s.device, s.queued, s.threads, t, Refused(p));
    } else {
      if c.transmit { AwakeRole(s.ring, s.state, s.pending, s.running, s.threads, t, Kicking(cpu)); }
      ServedBy(s.device + [p], s.queued, s.threads[t := Kicking(cpu)], t);
      PlacedMove(s.owner, s.state, s.place, s.ring, p, InDevice);
      OrderedMove(s.ring, s.entered, s.left, s.place, p, InDevice);
      HeldDevice(s.device, s.place, s.threads, p, t, cpu);
    }
  }

  lemma {:induction false} WithIs(c: Config, s: Sys, t: Thread, p: Packet)
    requires Inv(c, s) && t in s.threads && Works(s.threads[t]) == Some(p)
    ensures p in s.place && s.place[p] == With(t) && p in s.state && s.state[p] == Uncrypted && p in s.owner
    ensures s.owner[p] in s.ring && p in s.ring[s.owner[p]]
  {
  }

  lemma {:induction false} PlacedMove(owner: Owner, state: States, place: Places, ring: Rings, p: Packet, x: Place)
    requires Placed(owner, state, place, ring) && p in place && InRing(place[p]) && Unfinished(place[p]) && InRing(x)
    requires Unfinished(x)
    ensures Placed(owner, state, place[p := x], ring)
  {
  }

  lemma {:induction false} HeldRole(device: seq<Packet>, place: Places, threads: Roles, p: Packet, t: Thread, r: Role)
    requires Held(device, place, threads) && t in threads && Works(threads[t]) == Some(p) && Works(r) == Some(p)
    ensures Held(device, place, threads[t := r])
  {
  }

  lemma {:induction false} HeldDevice(device: seq<Packet>, place: Places, threads: Roles, p: Packet, t: Thread,
                                      cpu: Cpu)
    requires Held(device, place, threads) && t in threads && Works(threads[t]) == Some(p)
    ensures Held(device + [p], place[p := InDevice], threads[t := Kicking(cpu)])
  {
    AppendUnique(device, p);
  }

  lemma {:induction false} KickKeeps(c: Config, s: Sys, t: Thread)
    requires Inv(c, s) && t in s.threads && s.threads[t].Kicking?
    ensures Inv(c, DoKick(s, t))
  {
    hide Placed;
    hide Ordered;
    hide Held;
    hide Consuming;
    hide Awake;
    HeldIdle(s.device, s.place, s.threads, t, Looping);
    assert s.threads[t].cpu in s.queued + {s.threads[t].cpu};
    if c.transmit { AwakeRole(s.ring, s.state, s.pending, s.running, s.threads, t, Looping); }
  }

  lemma {:induction false} StartWorkerKeeps(c: Config, s: Sys, t: Thread, cpu: Cpu)
    requires Inv(c, s) && t !in s.threads && cpu in s.queued
    ensures Inv(c, DoStartWorker(s, t, cpu))
  {
    hide Placed;
    hide Ordered;
    hide Held;
    hide Consuming;
    hide Awake;
    hide Served;
    HeldIdle(s.device, s.place, s.threads, t, Looping);
    ServedBy(s.device, s.queued - {cpu}, s.threads[t := Looping], t);
    if c.transmit { AwakeRole(s.ring, s.state, s.pending, s.running, s.threads, t, Looping); }
  }

  /** A thread without a packet may take up another role without one, or end. */
  lemma {:induction false} HeldIdle(device: seq<Packet>, place: Places, threads: Roles, t: Thread, r: Role)
    requires Held(device, place, threads) && (t in threads ==> Works(threads[t]) == None && !threads[t].ToPeer?)
    requires Works(r) == None && !r.ToPeer?
    ensures Held(device, place, threads[t := r]) && Held(device, place, threads - {t})
  {
  }

  lemma {:induction false} ConsumeKeeps(c: Config, s: Sys, t: Thread)
    requires Inv(c, s) && t in s.threads && s.threads[t].Looping?
    ensures Inv(c, DoConsume(s, t))
  {
    if s.device == [] {
      HeldIdle(s.device, s.place, s.threads, t, Looping);
      hide Placed;
      hide Ordered;
      hide Held;
      hide Consuming;
      if c.transmit { AwakeRole(s.ring, s.state, s.pending, s.running, s.threads, t, Looping); }
    } else {
      TakeKeeps(c, s, t);
    }
  }

  lemma {:induction false} TakeKeeps(c: Config, s: Sys, t: Thread)
    requires Inv(c, s) && t in s.threads && s.threads[t].Looping? && s.device != []
    ensures Inv(c, DoConsume(s, t))
  {
    var p := s.device[0];
    assert p in s.device;
    hide Awake;
    PlacedMove(s.owner, s.state, s.place, s.ring, p, With(t));
    OrderedMove(s.ring, s.entered, s.left, s.place, p, With(t));
    HeldTaken(s.device, s.place, s.threads, t);
    hide Placed;
    hide Ordered;
    hide Held;
    hide Consuming;
    hide Served;
    ServedBy(s.device[1..], s.queued, s.threads[t := Crypting(p)], t);
    if c.transmit { AwakeRole(s.ring, s.state, s.pending, s.running, s.threads, t, Crypting(p)); }
  }

  lemma {:induction false} HeldTaken(device: seq<Packet>, place: Places, threads: Roles, t: Thread)
    requires Held(device, place, threads) && t in threads && threads[t].Looping? && device != []
    ensures Held(device[1..], place[device[0] := With(t)], threads[t := Crypting(device[0])])
  {
    TailUnique(device);
  }

  lemma {:induction false} TailUnique(s: seq<Packet>)
    requires NoRepeats(s) && s != []
    ensures NoRepeats(s[1..]) && s[0] !in s[1..] && forall p :: p in s <==> p == s[0] || p in s[1..]
  {
    assert s == [s[0]] + s[1..];
    forall i | 0 <= i < |s[1..]| ensures s[1..][i] != s[0] {
      assert s[1..][i] == s[i + 1];
    }
  }

  // ---------- release

  lemma {:induction false} ReleaseKeeps(c: Config, s: Sys, t: Thread, p: Packet, st: State)
    requires Inv(c, s) && t in s.threads && Works(s.threads[t]) == Some(p) && !s.threads[t].ToDevice? && st != Uncrypted
    ensures Inv(c, Release(s, t, p, st))
  {
    hide Placed;
    hide Ordered;
    hide Held;
    hide Consuming;
    hide Awake;
    hide Served;
    WithIs(c, s, t, p);
    var worker := s.threads[t].Crypting?;
    PlacedRelease(s.owner, s.state, s.place, s.ring, p, st);
    OrderedMove(s.ring, s.entered, s.left, s.place, p, Waiting);
    HeldRelease(s.device, s.place, s.threads, p, t, s.owner[p], worker);
    ConsumingRelease(s.running, s.ring, s.state, p, st);
    ServedRole(s.device, s.queued, s.threads, t, Waking(s.owner[p], worker));
    if c.transmit { AwakeRelease(c, s, t, p, st, worker); }
  }

  lemma {:induction false} PlacedRelease(owner: Owner, state: States, place: Places, ring: Rings, p: Packet, st: State)
    requires Placed(owner, state, place, ring) && p in place && InRing(place[p]) && st != Uncrypted
    ensures Placed(owner, state[p := st], place[p := Waiting], ring)
  {
  }

  lemma {:induction false} HeldRelease(device: seq<Packet>, place: Places, threads: Roles, p: Packet, t: Thread,
                                       q: PeerId, worker: bool)
    requires Held(device, place, threads) && t in threads && Works(threads[t]) == Some(p)
    ensures Held(device, place[p := Waiting], threads[t := Waking(q, worker)])
  {
  }

  lemma {:induction false} ConsumingRelease(running: Consumers, ring: Rings, state: States, p: Packet, st: State)
    requires Consuming(running, ring, state) && st != Uncrypted
    ensures Consuming(running, ring, state[p := st])
  {
  }

  /** The one head that may have become finished is that of the peer about to be woken. */
  lemma {:induction false} AwakeRelease(c: Config, s: Sys, t: Thread, p: Packet, st: State, worker: bool)
    requires Inv(c, s) && c.transmit && t in s.threads && Works(s.threads[t]) == Some(p) && p in s.owner
    ensures Awake(s.ring, s.state[p := st], s.pending, s.running, s.threads[t := Waking(s.owner[p], worker)])
  {
    OtherHeads(s.owner, s.state, s.place, s.ring, p, st);
    hide Placed;
    hide Ordered;
    hide Held;
    hide Consuming;
    AwakeRole(s.ring, s.state, s.pending, s.running, s.threads, t, Waking(s.owner[p], worker));
    hide HeadDone;
    var threads := s.threads[t := Waking(s.owner[p], worker)];
    assert t in threads && Wakes(threads[t], s.owner[p]);
    assert AboutToWake(threads, s.owner[p]);
    hide AboutToWake;
  }

  lemma {:induction false} OtherHeads(owner: Owner, state: States, place: Places, ring: Rings, p: Packet, st: State)
    requires Placed(owner, state, place, ring) && p in owner
    ensures forall q :: HeadDone(ring, state[p := st], q) ==> q == owner[p] || HeadDone(ring, state, q)
  {
    forall q | HeadDone(ring, state[p := st], q) ensures q == owner[p] || HeadDone(ring, state, q) {
      if ring[q][0] == p {
        assert p in ring[q];
      }
    }
  }

  // ---------- wake and consume

  lemma {:induction false} WakeKeeps(c: Config, s: Sys, t: Thread)
    requires Inv(c, s) && t in s.threads && s.threads[t].Waking?
    ensures Inv(c, DoWake(s, t))
  {
    hide Placed;
    hide Ordered;
    hide Held;
    hide Consuming;
    hide Served;
    HeldIdle(s.device, s.place, s.threads, t, Looping);
    ServedRole(s.device, s.queued, s.threads, t, Looping);
    AwakeWake(s.ring, s.state, s.pending, s.running, s.threads, t, s.threads[t].peer);
    hide Awake;
  }

  /** The consumer is scheduled, so the thread need not remember it any longer. */
  lemma {:induction false} AwakeWake(ring: Rings, state: States, pending: set<PeerId>, running: Consumers,
                                     threads: Roles, t: Thread, q: PeerId)
    requires t in threads && Wakes(threads[t], q)
    ensures Awake(ring, state, pending, running, threads) ==>
      Awake(ring, state, pending + {q}, running, threads - {t})
        && Awake(ring, state, pending + {q}, running, threads[t := Looping])
  {
    forall x | AboutToWake(threads, x) && x != q
      ensures AboutToWake(threads - {t}, x) && AboutToWake(threads[t := Looping], x)
    {
      var u :| u in threads && Wakes(threads[u], x);
      assert u in threads - {t} && Wakes((threads - {t})[u], x);
      assert u in threads[t := Looping] && Wakes(threads[t := Looping][u], x);
    }
    hide AboutToWake;
    hide HeadDone;
  }

  lemma {:induction false} StartKeeps(c: Config, s: Sys, q: PeerId)
    requires Inv(c, s) && q in s.pending && q !in s.running
    ensures Inv(c, DoStart(s, q))
  {
    hide Served;
    hide Placed;
    hide Ordered;
    hide Held;
    hide AboutToWake;
    hide HeadDone;
  }

  lemma {:induction false} PeekKeeps(c: Config, s: Sys, q: PeerId)
    requires Inv(c, s) && q in s.running && s.running[q].Peeking? && q in s.ring
    ensures Inv(c, DoPeek(s, q))
  {
    hide Served;
    hide Placed;
    hide Ordered;
    hide Held;
    hide AboutToWake;
    if HeadDone(s.ring, s.state, q) {
      assert DoPeek(s, q) == s.(running := s.running[q := Found(s.ring[q][0])]);
    } else {
      assert DoPeek(s, q) == s.(running := s.running - {q});
    }
    hide HeadDone;
  }

  lemma {:induction false} PauseKeeps(c: Config, s: Sys, q: PeerId)
    requires Inv(c, s) && !c.transmit && q in s.running && s.running[q].Peeking?
    ensures Inv(c, DoPause(c, s, q))
  {
    hide Served;
    hide Placed;
    hide Ordered;
    hide Held;
    hide Awake;
    hide HeadDone;
  }

  lemma {:induction false} DiscardKeeps(c: Config, s: Sys, q: PeerId)
    requires Inv(c, s) && q in s.running && s.running[q].Found?
    ensures Inv(c, DoDiscard(s, q))
  {
    DiscardSafe(c, s, q);
    var p := s.ring[q][0];
    RingUnique(s.left[q], s.ring[q], s.entered[q]);
    KeysStay(s.ring, q, s.ring[q][1..]);
    PlacedDiscard(s.owner, s.state, s.place, s.ring, q);
    OrderedDiscard(s.ring, s.entered, s.left, s.place, q);
    HeldDiscard(s.device, s.place, s.threads, p);
    HeadsDiscard(s.ring, s.state, s.running, q);
    if c.transmit { AwakeDiscard(s.ring, s.state, s.pending, s.running, s.threads, q); }
  }

  /** A packet leaves its peer's ring only when neither the device's ring nor a producer or worker has it. */
  lemma {:induction false} DiscardSafe(c: Config, s: Sys, q: PeerId)
    requires Inv(c, s) && q in s.running && s.running[q].Found?
    ensures q in s.ring && s.ring[q] != [] && q in s.left && s.running[q].packet == s.ring[q][0]
    ensures var p := s.ring[q][0];
      && p in s.place && s.place[p] == Waiting && p !in s.device
      && forall t | t in s.threads :: Works(s.threads[t]) != Some(p) && s.threads[t] != ToPeer(p)
  {
    var p := s.ring[q][0];
    assert p in s.ring[q];
  }

  lemma {:induction false} RingUnique(left: seq<Packet>, ring: seq<Packet>, entered: seq<Packet>)
    requires entered == left + ring && NoRepeats(entered)
    ensures NoRepeats(ring) && NoRepeats(left)
  {
    forall i, j | 0 <= i < j < |ring| ensures ring[i] != ring[j] {
      assert entered[|left| + i] == ring[i] && entered[|left| + j] == ring[j];
    }
    forall i, j | 0 <= i < j < |left| ensures left[i] != left[j] {
      assert entered[i] == left[i] && entered[j] == left[j];
    }
  }

  lemma {:induction false} PlacedDiscard(owner: Owner, state: States, place: Places, ring: Rings, q: PeerId)
    requires Placed(owner, state, place, ring) && q in ring && ring[q] != [] && NoRepeats(ring[q])
    requires ring[q][0] in place && place[ring[q][0]] == Waiting
    ensures Placed(owner, state, place[ring[q][0] := Gone], ring[q := ring[q][1..]])
  {
    TailUnique(ring[q]);
    assert ring[q][0] in ring[q];
  }

  lemma {:induction false} OrderedDiscard(ring: Rings, entered: Rings, left: Rings, place: Places, q: PeerId)
    requires Ordered(ring, entered, left, place) && q in ring && ring[q] != []
    ensures q in left
    ensures Ordered(ring[q := ring[q][1..]], entered, left[q := left[q] + [ring[q][0]]], place[ring[q][0] := Gone])
  {
    assert left[q] + ring[q] == left[q] + [ring[q][0]] + ring[q][1..];
  }

  lemma {:induction false} HeldDiscard(device: seq<Packet>, place: Places, threads: Roles, p: Packet)
    requires Held(device, place, threads) && p in place && place[p] == Waiting
    ensures Held(device, place[p := Gone], threads)
  {
  }

  lemma {:induction false} HeadsDiscard(ring: Rings, state: States, running: Consumers, q: PeerId)
    requires Consuming(running, ring, state) && q in ring && ring[q] != []
    ensures Consuming(running[q := Peeking], ring[q := ring[q][1..]], state)
  {
  }

  lemma {:induction false} AwakeDiscard(ring: Rings, state: States, pending: set<PeerId>, running: Consumers,
                                        threads: Roles, q: PeerId)
    requires Awake(ring, state, pending, running, threads) && q in ring && ring[q] != []
    ensures Awake(ring[q := ring[q][1..]], state, pending, running[q := Peeking], threads)
  {
    hide AboutToWake;
    forall x | HeadDone(ring[q := ring[q][1..]], state, x) && x != q ensures HeadDone(ring, state, x) {
    }
  }

  // ---------- every interleaving

  lemma {:induction false} StepKeeps(c: Config, s: Sys, e: Event)
    requires Inv(c, s)
    ensures Inv(c, Step(c, s, e))
  {
    hide Inv;
    match e
    case Produce(t, p, q) => if !(t in s.threads || p in s.owner || q !in s.ring) { ProduceKeeps(c, s, t, p, q); }
    case EnterPeer(t) =>
      if t in s.threads && s.threads[t].ToPeer? && s.threads[t].packet in s.owner {
        EnterPeerKeeps(c, s, t, s.threads[t].packet, s.owner[s.threads[t].packet]);
      }
    case EnterDevice(t, cpu) =>
      if t in s.threads && s.threads[t].ToDevice? { EnterDeviceKeeps(c, s, t, s.threads[t].packet, cpu); }
    case MarkDead(t) => if t in s.threads && s.threads[t].Refused? { ReleaseKeeps(c, s, t, s.threads[t].packet, Dead); }
    case Kick(t) => if t in s.threads && s.threads[t].Kicking? { KickKeeps(c, s, t); }
    case StartWorker(t, cpu) => if t !in s.threads && cpu in s.queued { StartWorkerKeeps(c, s, t, cpu); }
    case Consume(t) => if t in s.threads && s.threads[t].Looping? { ConsumeKeeps(c, s, t); }
    case Finish(t, ok) =>
      if t in s.threads && s.threads[t].Crypting? {
        ReleaseKeeps(c, s, t, s.threads[t].packet, if ok then Crypted else Dead);
      }
    case Wake(t) => if t in s.threads && s.threads[t].Waking? { WakeKeeps(c, s, t); }
    case Start(q) => if q in s.pending && q !in s.running { StartKeeps(c, s, q); }
    case Peek(q) => if q in s.running && s.running[q].Peeking? && q in s.ring { PeekKeeps(c, s, q); }
    case Pause(q) => if !c.transmit && q in s.running && s.running[q].Peeking? { PauseKeeps(c, s, q); }
    case Discard(q) => if q in s.running && s.running[q].Found? { DiscardKeeps(c, s, q); }
  }

  lemma {:induction false} RunKeeps(c: Config, events: seq<Event>)
    ensures Inv(c, Run(c, events))
  {
    hide Inv;
    hide Step;
    if events == [] {
      InitInv(c);
    } else {
      RunKeeps(c, events[..|events| - 1]);
      StepKeeps(c, Run(c, events[..|events| - 1]), events[|events| - 1]);
    }
  }

  /** In every interleaving packets leave a peer's ring in the order they entered it, none twice. */
  lemma {:induction false} InOrderOnce(c: Config, events: seq<Event>, q: PeerId)
    requires q in c.peers
    ensures var s := Run(c, events);
      q in s.left && q in s.entered && s.left[q] <= s.entered[q] && NoRepeats(s.left[q])
  {
    RunKeeps(c, events);
    hide Run;
    var s := Run(c, events);
    RingUnique(s.left[q], s.ring[q], s.entered[q]);
  }

  /** What the invariant says about a packet in a transmit ring. */
  lemma {:induction false} Attended(c: Config, s: Sys, q: PeerId, p: Packet)
    requires Inv(c, s) && c.transmit && q in s.ring && p in s.ring[q]
    ensures p in s.state
    ensures s.state[p] == Uncrypted ==> p in s.device || exists t | t in s.threads :: Works(s.threads[t]) == Some(p)
    ensures s.ring[q][0] == p && s.state[p] != Uncrypted ==>
      q in s.pending || q in s.running || AboutToWake(s.threads, q)
  {
    hide AboutToWake;
    assert p in s.owner && s.owner[p] == q && InRing(s.place[p]);
    if s.state[p] == Uncrypted && p !in s.device {
      assert s.place[p].With?;
      assert Works(s.threads[s.place[p].who]) == Some(p);
    }
    assert s.ring[q][0] == p && s.state[p] != Uncrypted ==> HeadDone(s.ring, s.state, q);
  }

  /** On either side, while a packet is in the device's ring, a worker is scheduled, in its loop, or about to
      be scheduled by a producer. */
  lemma {:induction false} DeviceServed(c: Config, events: seq<Event>)
    ensures var s := Run(c, events);
      s.device == [] || s.queued != {} || exists t | t in s.threads :: Serves(s.threads[t])
  {
    RunKeeps(c, events);
    hide Run;
  }

  /** On the transmit side nothing is stranded: an unfinished packet in a ring is in the device's ring
      or with a thread, and a finished head has its consumer scheduled, running or about to be. */
  lemma {:induction false} NoneStranded(c: Config, events: seq<Event>, q: PeerId, p: Packet)
    requires c.transmit && q in Run(c, events).ring && p in Run(c, events).ring[q]
    ensures var s := Run(c, events);
      && p in s.state
      && (s.state[p] == Uncrypted ==> p in s.device || exists t | t in s.threads :: Works(s.threads[t]) == Some(p))
      && (s.ring[q][0] == p && s.state[p] != Uncrypted ==>
            q in s.pending || q in s.running || AboutToWake(s.threads, q))
  {
    hide Inv;
    hide Run;
    hide AboutToWake;
    RunKeeps(c, events);
    Attended(c, Run(c, events), q, p);
  }

  /** In every interleaving, a packet that is about to leave its peer's ring is finished and held by
      neither the device's ring nor a producer or worker. */
  lemma {:induction false} LeavesUnheld(c: Config, events: seq<Event>, q: PeerId)
    requires q in Run(c, events).running && Run(c, events).running[q].Found?
    ensures var s := Run(c, events);
      && q in s.ring && s.ring[q] != [] && s.ring[q][0] in s.state && s.state[s.ring[q][0]] != Uncrypted
      && s.ring[q][0] !in s.device
      && forall t | t in s.threads :: Works(s.threads[t]) != Some(s.ring[q][0]) && s.threads[t] != ToPeer(s.ring[q][0])
  {
    RunKeeps(c, events);
    hide Run;
    DiscardSafe(c, Run(c, events), q);
  }
}
