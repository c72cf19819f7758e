/** Runs of the keypair machine: what holds of every sequence of handshakes, sessions,
    receipts, clears and packets, and that the counting implementation follows it. */
module KeypairRuns {
  import opened Options
  import opened Keypairs

  datatype Event =
    | Insert(index: nat) | Forget | Begin(id: Id, asInitiator: bool) | ClearAll
    | Send | Receive(index: nat) | Arrive(packet: nat) | Drop(packet: nat) | Die

  const START := State(None, None, None, [], None, map[], false)

  /** One event: the next state, and the keypair that was sent under or found. Events that do not
      apply, such as the end of a packet that does not exist, change nothing. */
  function Step(s: State, e: Event): (State, Option<Id>) {
    match e
    case Insert(index) => (Hashed(s, index), None)
    case Forget => (s.(handshake := None), None)
    case Begin(id, initiator) => (if id in s.info then s else Begun(s, id, initiator), None)
    case ClearAll => (s.(current := None, previous := None, next := None), None)
    case Send => (Carried(s, s.current), s.current)
    case Receive(index) => (Carried(s, s.Finds(index)), s.Finds(index))
    case Arrive(j) => (if j < |s.packets| then Dropped(Confirmed(s, s.packets[j]), j) else s, None)
    case Drop(j) => (Dropped(s, j), None)
    case Die => (s.(dead := true), None)
  }

  function After(events: seq<Event>): State {
    if events == [] then START else Step(After(events[..|events| - 1]), events[|events| - 1]).0
  }

  /** The keypair event number n sends under or finds. */
  function Used(events: seq<Event>, n: nat): Option<Id>
    requires n < |events|
  {
    Step(After(events[..n]), events[n]).1
  }

  lemma {:induction false} AfterNext(events: seq<Event>, n: nat)
    requires n < |events|
    ensures After(events[..n + 1]) == Step(After(events[..n]), events[n]).0
  {
    assert events[..n + 1][..n] == events[..n];
  }

  // ---------- every reachable state

  ghost predicate Known(s: State) {
    && (forall k | s.Sits(k) :: k in s.info)
    && (forall k | k in s.packets :: k in s.info)
  }

  /** The slots differ, and the current keypair was made as initiator or is confirmed. */
  predicate Sound(s: State) {
    && (s.current.Some? ==> s.current != s.previous && s.current != s.next)
    && (s.previous.Some? ==> s.previous != s.next)
    && (s.current.Some? ==>
          && s.current.value in s.info
          && (s.info[s.current.value].initiator || s.info[s.current.value].confirmed))
  }

  ghost predicate Fine(s: State) {
    Known(s) && Sound(s)
  }

  lemma {:induction false} DropFine(s: State, j: nat)
    requires Fine(s)
    ensures Fine(Dropped(s, j))
  {
  }

  lemma {:induction false} CarryFine(s: State, c: Option<Id>)
    requires Fine(s) && (c.Some? ==> s.Sits(c.value))
    ensures Fine(Carried(s, c))
  {
  }

  lemma {:induction false} ConfirmFine(s: State, k: Id)
    requires Fine(s)
    ensures Fine(Confirmed(s, k))
  {
  }

  lemma {:induction false} BeginFine(s: State, id: Id, initiator: bool)
    requires Fine(s) && id !in s.info
    ensures Fine(Begun(s, id, initiator))
  {
  }

  lemma {:induction false} StepFine(s: State, e: Event)
    requires Fine(s)
    ensures Fine(Step(s, e).0)
  {
    hide Dropped;
    hide Carried;
    hide Confirmed;
    hide Begun;
    match e
    case Begin(id, initiator) => if id !in s.info { BeginFine(s, id, initiator); }
    case Send => CarryFine(s, s.current);
    case Receive(index) => CarryFine(s, s.Finds(index));
    case Arrive(j) =>
      if j < |s.packets| {
        ConfirmFine(s, s.packets[j]);
        DropFine(Confirmed(s, s.packets[j]), j);
      }
    case Drop(j) => DropFine(s, j);
    case _ =>
  }

  lemma {:induction false} AlwaysSound(events: seq<Event>)
    ensures Known(After(events)) && Sound(After(events))
  {
    if events != [] {
      AlwaysSound(events[..|events| - 1]);
      StepFine(After(events[..|events| - 1]), events[|events| - 1]);
    }
  }

  // ---------- what is sent under

  /** Event n finds the keypair for a packet that has come in. */
  predicate Comes(events: seq<Event>, n: nat, k: Id)
    requires n < |events|
  {
    events[n].Receive? && Used(events, n) == Some(k)
  }

  /** Event n delivers an authenticated packet of the keypair. */
  predicate Delivers(events: seq<Event>, n: nat, k: Id)
    requires n < |events|
  {
    var s := After(events[..n]);
    events[n].Arrive? && events[n].packet < |s.packets| && s.packets[events[n].packet] == k
  }

  /** What one event does to what is known of a keypair. */
  lemma {:induction false} StepInfo(s: State, e: Event, k: Id)
    requires k in Step(s, e).0.info
    ensures k !in s.info ==> e == Begin(k, Step(s, e).0.info[k].initiator) && !Step(s, e).0.info[k].confirmed
    ensures k in s.info ==> Step(s, e).0.info[k].initiator == s.info[k].initiator
    ensures k in s.info && Step(s, e).0.info[k].confirmed && !s.info[k].confirmed ==>
      e.Arrive? && e.packet < |s.packets| && s.packets[e.packet] == k
  {
    hide Dropped;
    hide Carried;
    match e
    case Send => CarryKeeps(s, s.current, k);
    case Receive(index) => CarryKeeps(s, s.Finds(index), k);
    case Arrive(j) =>
      if j < |s.packets| {
        DropKeeps(Confirmed(s, s.packets[j]), j, k);
      }
    case Drop(j) => DropKeeps(s, j, k);
    case _ =>
  }

  /** Why a keypair counts as initiator's or as confirmed. */
  lemma {:induction false} History(events: seq<Event>, n: nat, k: Id)
    requires n <= |events| && k in After(events[..n]).info
    ensures After(events[..n]).info[k].initiator ==> Begin(k, true) in events[..n]
    ensures After(events[..n]).info[k].confirmed ==> exists i | 0 <= i < n :: Delivers(events, i, k)
  {
    hide Step;
    hide After;
    Nothing(events);
    if n > 0 {
      AfterNext(events, n - 1);
      var s, e := After(events[..n - 1]), events[n - 1];
      assert events[..n] == events[..n - 1] + [e];
      StepInfo(s, e, k);
      if k in s.info {
        History(events, n - 1, k);
        if Step(s, e).0.info[k].confirmed && !s.info[k].confirmed {
          assert Delivers(events, n - 1, k);
        }
      }
    }
  }

  /** A packet comes in under the keypair before event n. */
  predicate CameBefore(events: seq<Event>, n: nat, k: Id)
    requires n <= |events|
  {
    exists i | 0 <= i < n :: Comes(events, i, k)
  }

  /** A packet in flight that was not before has been sent under the current keypair or has come in. */
  lemma {:induction false} StepPackets(s: State, e: Event, k: Id)
    requires k in Step(s, e).0.packets && k !in s.packets
    ensures Step(s, e).1 == Some(k) && (e.Receive? || (e == Send && s.current == Some(k)))
  {
    hide Dropped;
    hide Carried;
    match e
    case Send => CarryKeeps(s, s.current, k);
    case Receive(index) => CarryKeeps(s, s.Finds(index), k);
    case Arrive(j) =>
      if j < |s.packets| {
        DropKeeps(Confirmed(s, s.packets[j]), j, k);
      }
    case Drop(j) => DropKeeps(s, j, k);
    case _ =>
  }

  /** What is in flight or confirmed under a keypair not begun as initiator began with a packet that came in. */
  lemma {:induction false} CameFirst(events: seq<Event>, n: nat, k: Id)
    requires n <= |events| && k in After(events[..n]).info && !After(events[..n]).info[k].initiator
    ensures k in After(events[..n]).packets || After(events[..n]).info[k].confirmed ==> CameBefore(events, n, k)
  {
    hide Step;
    hide After;
    Nothing(events);
    if n > 0 {
      AfterNext(events, n - 1);
      var s, e := After(events[..n - 1]), events[n - 1];
      AlwaysSound(events[..n - 1]);
      StepInfo(s, e, k);
      if k in Step(s, e).0.packets && k !in s.packets {
        StepPackets(s, e, k);
      }
      if k in s.info {
        CameFirst(events, n - 1, k);
        if e.Receive? && Step(s, e).1 == Some(k) {
          assert Comes(events, n - 1, k);
        }
      }
    }
  }

  lemma {:induction false} StepKnows(s: State, e: Event, k: Id)
    requires k in s.info
    ensures k in Step(s, e).0.info && Step(s, e).0.info[k].initiator == s.info[k].initiator
    ensures s.info[k].confirmed ==> Step(s, e).0.info[k].confirmed
  {
    hide Dropped;
    hide Carried;
    match e
    case Send => CarryKeeps(s, s.current, k);
    case Receive(index) => CarryKeeps(s, s.Finds(index), k);
    case Arrive(j) =>
      if j < |s.packets| {
        DropKeeps(Confirmed(s, s.packets[j]), j, k);
      }
    case Drop(j) => DropKeeps(s, j, k);
    case _ =>
  }

  lemma {:induction false} StaysKnown(events: seq<Event>, n: nat, m: nat, k: Id)
    requires n <= m <= |events| && k in After(events[..n]).info
    ensures var first, now := After(events[..n]).info[k], After(events[..m]).info;
      k in now && now[k].initiator == first.initiator && (first.confirmed ==> now[k].confirmed)
    decreases m
  {
    hide Step;
    hide After;
    if n < m {
      StaysKnown(events, n, m - 1, k);
      AfterNext(events, m - 1);
      StepKnows(After(events[..m - 1]), events[m - 1], k);
    }
  }

  /** Nothing is sent under the keypair before event n. */
  ghost predicate NoneSent(events: seq<Event>, n: nat, k: Id)
    requires n <= |events|
  {
    forall i | 0 <= i < n && events[i] == Send :: Used(events, i) != Some(k)
  }

  lemma {:induction false} UnconfirmedUnsent(events: seq<Event>, n: nat, k: Id)
    requires n <= |events| && k in After(events[..n]).info
    requires !After(events[..n]).info[k].initiator && !After(events[..n]).info[k].confirmed
    ensures NoneSent(events, n, k)
  {
    hide After;
    forall i | 0 <= i < n && events[i] == Send ensures Used(events, i) != Some(k) {
      AlwaysSound(events[..i]);
      if Used(events, i) == Some(k) {
        StaysKnown(events, i, n, k);
      }
    }
  }

  /** The packet that confirms a keypair has come in: at that time nothing has been sent under it. */
  lemma {:induction false} ConfirmedBy(events: seq<Event>, n: nat, k: Id)
    requires n <= |events| && k in After(events[..n]).info
    requires !After(events[..n]).info[k].initiator && After(events[..n]).info[k].confirmed
    ensures exists j | 0 <= j < n :: CameBefore(events, j, k) && NoneSent(events, j, k) && Delivers(events, j, k)
  {
    hide Step;
    hide After;
    Nothing(events);
    assert n > 0;
    AfterNext(events, n - 1);
    var s, e := After(events[..n - 1]), events[n - 1];
    StepInfo(s, e, k);
    if s.info[k].confirmed {
      ConfirmedBy(events, n - 1, k);
    } else {
      CameFirst(events, n - 1, k);
      UnconfirmedUnsent(events, n - 1, k);
      assert Delivers(events, n - 1, k);
    }
  }

  /** Nothing is ever sent under a keypair unless the peer began it as initiator, or an authenticated packet that
      came in under it was delivered before. */
  lemma {:induction false} SendsConfirmed(events: seq<Event>, n: nat, k: Id)
    requires n < |events| && events[n] == Send && Used(events, n) == Some(k)
    ensures Begin(k, true) in events[..n]
      || exists j | 0 <= j < n :: CameBefore(events, j, k) && NoneSent(events, j, k) && Delivers(events, j, k)
  {
    hide Sound;
    SendsSound(events, n, k);
    if After(events[..n]).info[k].initiator {
      History(events, n, k);
    } else {
      ConfirmedBy(events, n, k);
    }
  }

  lemma {:induction false} SendsSound(events: seq<Event>, n: nat, k: Id)
    requires n < |events| && events[n] == Send && Used(events, n) == Some(k)
    ensures k in After(events[..n]).info
    ensures After(events[..n]).info[k].initiator || After(events[..n]).info[k].confirmed
  {
    AlwaysSound(events[..n]);
  }

  // ---------- what has gone does not come back

  lemma {:induction false} DropKeeps(s: State, j: nat, k: Id)
    ensures var t := Dropped(s, j);
      && t.current == s.current && t.previous == s.previous && t.next == s.next && t.info == s.info
      && (k in t.packets ==> k in s.packets)
  {
  }

  lemma {:induction false} CarryKeeps(s: State, c: Option<Id>, k: Id)
    ensures var t := Carried(s, c);
      && t.current == s.current && t.previous == s.previous && t.next == s.next && t.info == s.info
      && (k in t.packets ==> k in s.packets || c == Some(k))
  {
  }

  lemma {:induction false} StepOut(s: State, e: Event, k: Id)
    requires k in s.info && !s.Sits(k)
    ensures k in Step(s, e).0.info && !Step(s, e).0.Sits(k)
    ensures e.Receive? ==> Step(s, e).1 != Some(k)
    ensures k !in s.packets ==> k !in Step(s, e).0.packets
  {
    hide Dropped;
    hide Carried;
    match e
    case Send => CarryKeeps(s, s.current, k);
    case Receive(index) => CarryKeeps(s, s.Finds(index), k);
    case Arrive(j) =>
      if j < |s.packets| {
        DropKeeps(Confirmed(s, s.packets[j]), j, k);
      }
    case Drop(j) => DropKeeps(s, j, k);
    case _ =>
  }

  /** A keypair evicted from its slot is never again in one, and no lookup finds it. */
  lemma {:induction false} EvictedStays(events: seq<Event>, n: nat, m: nat, k: Id)
    requires n <= m <= |events| && k in After(events[..n]).info && !After(events[..n]).Sits(k)
    ensures k in After(events[..m]).info && !After(events[..m]).Sits(k)
    ensures m < |events| && events[m].Receive? ==> Used(events, m) != Some(k)
    ensures k !in After(events[..n]).packets ==> k !in After(events[..m]).packets
    decreases m
  {
    hide Step;
    hide After;
    if n < m {
      EvictedStays(events, n, m - 1, k);
      AfterNext(events, m - 1);
      StepOut(After(events[..m - 1]), events[m - 1], k);
    }
    if m < |events| {
      StepOut(After(events[..m]), events[m], k);
    }
  }

  /** References to a keypair: slots and packets. */
  function References(s: State, k: Id): nat {
    One(s.current, k) + One(s.previous, k) + One(s.next, k) + InFlight(s.packets, k)
  }

  lemma {:induction false} InFlightZero(packets: seq<Id>, k: Id)
    ensures InFlight(packets, k) == 0 <==> k !in packets
  {
    if packets != [] {
      InFlightZero(packets[1..], k);
      assert packets == [packets[0]] + packets[1..];
    }
  }

  /** A count that has dropped to zero never rises again: a keypair is freed once and for all. */
  lemma {:induction false} FreedOnce(events: seq<Event>, n: nat, m: nat, k: Id)
    requires n <= m <= |events| && k in After(events[..n]).info && References(After(events[..n]), k) == 0
    ensures References(After(events[..m]), k) == 0
  {
    InFlightZero(After(events[..n]).packets, k);
    InFlightZero(After(events[..m]).packets, k);
    EvictedStays(events, n, m, k);
  }

  // ---------- the implementation

  /** The peer with its counts and its index table follows the machine through every run: same slots
      and packets, same keypairs sent under and found; counts are the references, freed once those are
      gone; and the table lists exactly the keypairs in slots. */
  method Run(events: seq<Event>) returns (peer: Peer, used: seq<Option<Id>>)
    ensures fresh(peer) && peer.View() == After(events)
    ensures |used| == |events| && forall n | 0 <= n < |events| :: used[n] == Used(events, n)
    ensures forall k | k in peer.pool ::
      && peer.pool[k].refcount == References(After(events), k)
      && peer.pool[k].frees == if References(After(events), k) == 0 then 1 else 0
    ensures forall i: nat :: After(events).Finds(i) == Leads(peer.table, i)
  {
    hide After;
    hide Peer.Valid;
    hide Peer.View;
    peer := new Peer();
    used := [];
    Nothing(events);
    for n := 0 to |events|
      invariant fresh(peer) && peer.Valid() && peer.View() == After(events[..n])
      invariant |used| == n && forall i | 0 <= i < n :: used[i] == Used(events, i)
    {
      AfterNext(events, n);
      var k := Apply(peer, events[n]);
      used := used + [k];
    }
    assert events[..|events|] == events;
    Counts(peer);
  }

  lemma {:induction false} Nothing(events: seq<Event>)
    ensures After(events[..0]) == START
  {
  }

  method Apply(peer: Peer, e: Event) returns (k: Option<Id>)
    requires peer.Valid()
    modifies peer
    ensures peer.Valid() && (peer.View(), k) == Step(old(peer.View()), e)
  {
    hide Consistent;
    ViewKeys(peer);
    hide InfoOf;
    k := None;
    match e
    case Insert(index) => var ok := peer.InsertHandshake(index);
    case Forget => peer.RemoveHandshake();
    case Begin(id, i) => if id !in peer.pool { var ok := peer.BeginSession(id, i); }
    case ClearAll => peer.Clear();
    case Send => k := peer.SendWithCurrent();
    case Receive(index) => k := peer.ReceiveFor(index);
    case Arrive(j) => if j < |peer.packets| { peer.Deliver(j); }
    case Drop(j) => if j < |peer.packets| { peer.DropPacket(j); }
    case Die => peer.isDead := true;
  }

  lemma {:induction false} ViewKeys(peer: Peer)
    ensures peer.View().info.Keys == peer.pool.Keys
  {
  }

  lemma {:induction false} Counts(peer: Peer)
    requires peer.Valid()
    ensures forall k | k in peer.pool ::
      && peer.pool[k].refcount == References(peer.View(), k)
      && peer.pool[k].frees == if References(peer.View(), k) == 0 then 1 else 0
    ensures forall i: nat :: peer.View().Finds(i) == Leads(peer.table, i)
  {
    var h := peer.H(None, None);
    forall k | k in peer.pool ensures h.Count(k) == References(peer.View(), k) {
    }
    forall i: nat ensures peer.View().Finds(i) == Leads(peer.table, i) {
      FindsIs(peer.table, peer.handshakeIndex, peer.pool, h, peer.View(), i);
    }
  }
}
